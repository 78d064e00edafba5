# pygame-experiments: the game logic of the demos, in Dafny

The pygame-experiments repository is a series of small, independent pygame
demos. Each demo wraps a little game logic in code that draws to the screen.
This project models that logic with immutable datatypes and pure functions,
and proves what the demos rely on. Every surface, font and file is treated as
an opaque value or an abstract function.

The modules follow the pieces the demos share:

- `Tiled`: the Tiled map loader that every tile demo carries a copy of.
  - Both CSV dialects: whitespace-and-comma, and comma only.
  - Little-endian 32-bit unpacking of the inflated base64/zlib payload.
  - Refusal of unsupported encodings, and the one-layer check.
  - Slicing a tileset atlas into a tile list whose entry 0 means "draw
    nothing".
  - Row-major `get_index`/`get_tile`, with Python list indexing modelled
    exactly: negative indices wrap and anything else raises `IndexError`.
- `Viewport`: the viewport of the two tilemap demos, which moves one tile
  at a time and is clamped to the map, and their render loops.
- `Camera` and `ScaledCamera`: the tile camera of the trigger, scaled-tile
  and smooth-scrolling demos.
  - Tile counts computed with floor division.
  - The edge tile for cells off the map.
  - The draw cell range, with or without skipping tile 0.
  - The smooth-scroll `set_offset` normalisation and its key handling.
  - The scaled-tile memo cache, the scale dispatch and the Space-key mode
    cycle.
- `Triggers`: the map trigger demo.
  - A table keyed by `(x, y)` where the last write wins.
  - Ordered lists of map-level enter/exit callbacks.
  - Movement one tile per key, which fires exit before enter.
  - Callbacks are numbered, and each call is an event appended to a log.
- `Sprite`: the Liberated Pixel Cup sprite shared by the sprite demos: frame
  counts, the frame counter and the sheet cut-outs.
- `TileWalk`: the Wait/Walk state machine of the tile-movement demo.
- `Movement`: the per-tick movement, clamping and collision revert of the
  lighting, blocked-sprite, joystick and unwalkables demos.
- `TextWrap`: the text boxes' `add_text`.
  - Greedy word wrap by pixel width.
  - Column wrap with `rindex`.
  - Styled-piece wrap.
  - Buffer trimming by line count or by pixel height.
- `Dialog`: the conversation dialog's frame layout, prompt editing and
  keyword table.
- `TextEntry`: the text-entry demo's cursor line and history.
- `Widgets`: the button's flags, the label's text centring, and the spinner
  with its cyclic index.
- `FancyText`: the fancy-text view.
  - Tag stripping with the four regular expressions, and style and colour
    selection.
  - The line-break positions of `draw`.
- `Wrappers`, `Arith`, `PyStr` and `Grid` are support modules:
  - `Option` and `Result`.
  - Small arithmetic facts.
  - Python's `str.split`, `str.split(sep)`, `int`, `str` and `rindex`.
  - Row-major cell walks and the draw loop that stops at the first exception.

Each real-time `dt` accumulator is modelled as a boolean input that says
whether a step is due. Python's `//` and `%` with a positive divisor are
Dafny's `/` and `%`. An exception is the `Failure` or `None` of a `Result` or
`Option`.

## Model

| member | source | states |
|---|---|---|
| Tiled.ParseAll | 28-map-triggers/main.py:102-104 | `int(c)` of every token, in order. The load succeeds iff every token parses. The first token `int` rejects is the `ValueError`. |
| Tiled.DropEmpty | 24-tile-movement/main.py:77-79 | Keeps exactly the non-empty parts. Parts that are all non-empty come through unchanged. |
| Tiled.DropEmptyFilter | 24-tile-movement/main.py:77-79 | The `if c != ''` test is a filter: it works part by part, so order and repeats are kept. A single part is kept iff it is not empty. |
| Tiled.LooseTokens | 24-tile-movement/main.py:75-79 | The tokens of the whitespace-and-comma reader are non-empty, whitespace-free and comma-free. |
| Tiled.LooseTokensSpace | 24-tile-movement/main.py:75-79 | A whitespace character splits the text into two parts whose tokens follow each other. |
| Tiled.LooseTokensWord | 24-tile-movement/main.py:76-79 | A whitespace-free text is one line, whose tokens are its non-empty comma pieces. |
| Tiled.LooseTokensRow | 24-tile-movement/main.py:74-79 | A row written with commas reads back as the decimals of its values, in order, including the empty row. |
| Tiled.LooseTokensRowComma | 18-tilemap-layers/main.py:68-73 | A comma after a written row adds no token. |
| Tiled.LooseCsvRoundTrip | 24-tile-movement/main.py:74-79 | The whitespace-and-comma reader reads back exactly the values any one-line CSV row was written from. |
| Tiled.LooseRowLines | 24-tile-movement/main.py:74-79 | The rows of a layer, each on its own line with a comma after every row but the last, read back as all their decimals in order. |
| Tiled.LooseCsvRowsRoundTrip | 18-tilemap-layers/main.py:68-73 | A whole multi-row layer as Tiled writes it, newlines included, reads back as its rows concatenated in order. Any rows, empty ones included. |
| Tiled.CommaCsvRoundTrip | 28-map-triggers/main.py:102-104 | The comma-only reader reads back exactly the values a one-line CSV layer was written from. |
| Tiled.CommaRowPieces | 28-map-triggers/main.py:103 | A row padded with whitespace splits on commas into one piece per value, each stripping to its decimal. |
| Tiled.CommaRowsPieces | 28-map-triggers/main.py:103 | A multi-row layer splits on commas into one piece per value, in order, each its decimal padded with the row newlines. |
| Tiled.ParseAllPadded | 28-map-triggers/main.py:104 | `int` strips the padding, so the padded pieces parse to the values. |
| Tiled.ParseAllPointwise | 28-map-triggers/main.py:103-104 | Tokens that each parse to the matching value parse together to all the values. |
| Tiled.CommaCsvRowsRoundTrip | 28-map-triggers/main.py:102-104 | A whole multi-row layer as Tiled writes it reads back, through the comma-only reader, as its rows concatenated in order. |
| Tiled.TrailingCommaDialects | 28-map-triggers/main.py:102-104 | With a trailing comma, the whitespace-and-comma reader still succeeds. The comma-only reader fails on the empty last token. |
| Tiled.TrailingCommaLoose | 24-tile-movement/main.py:75-79 | A trailing comma leaves an empty piece, which the whitespace-and-comma reader drops. |
| Tiled.TrailingCommaComma | 28-map-triggers/main.py:103-104 | The comma-only reader passes that empty piece to `int`, which fails on `''`. |
| Tiled.DropEmptyTrailing | 18-tilemap-layers/main.py:71-73 | A trailing empty part is dropped and nothing else changes. |
| Tiled.ParseAllFirstFailure | 28-map-triggers/main.py:103-104 | After tokens that all parse, a bad token is the one reported. |
| Tiled.ParseAllDecimals | 28-map-triggers/main.py:104 | `int(str(n))` recovers every value of a row. |
| Tiled.Words | 24-tile-movement/main.py:84 | One value per whole group of four bytes. |
| Tiled.WordsAt | 24-tile-movement/main.py:84 | Value `i` is b0 + 2^8·b1 + 2^16·b2 + 2^24·b3 of bytes 4i..4i+3. |
| Tiled.UnpackLE32 | 24-tile-movement/main.py:84 | `struct.iter_unpack('<I')` succeeds iff the byte count is a multiple of 4. It then yields bytes/4 little-endian values; otherwise it reports the bad count. |
| Tiled.UnpackedInRange | 24-tile-movement/main.py:84 | Every unpacked value is an unsigned 32-bit integer. |
| Tiled.PackU32RoundTrip | 24-tile-movement/main.py:84 | Unpacking the little-endian bytes of a 32-bit value gives it back. |
| Tiled.UnpackPack | 24-tile-movement/main.py:84 | Unpacking a packed sequence of 32-bit values gives them back. |
| Tiled.EncodingsAgree | 24-tile-movement/main.py:74-84 | A CSV payload and a little-endian payload of the same values decode alike, in both CSV dialects. |
| Tiled.DecodeLayer | 24-tile-movement/main.py:74-86 | `csv` uses the copy's CSV reader. `base64` with `zlib` unpacks the inflated bytes, except in the CSV-only copy. A missing encoding is a `KeyError`. Anything else raises the unsupported-encoding error. |
| Tiled.Names | 24-tile-movement/main.py:88 | Every layer's name becomes a key. |
| Tiled.NamesOnly | 24-tile-movement/main.py:88 | Only layer names become keys. |
| Tiled.LoadLayers | 24-tile-movement/main.py:66-88 | The load succeeds iff every layer decodes. The keys are exactly the layer names. Each name maps to its last layer's data. |
| Tiled.LoadSingleLayer | 11-tilemap/main.py:27-70 | More than one layer is refused. No layer fails on `layers[0]`. One layer is read as whitespace-and-comma CSV. |
| Tiled.SliceSheet | 24-tile-movement/main.py:60-63 | (H // th)·(W // tw) tiles of the requested size, each lying inside the sheet, in row-major order. |
| Tiled.SliceSheetAt | 11-tilemap/main.py:54-57 | Cut `k` is column `k % cols` and row `k // cols`. |
| Tiled.BuildTiles | 24-tile-movement/main.py:47-63 | Entry 0 is `None`, followed by every sheet's tiles, for 1 + the tile count entries in all. The last sheet's tiles come last, in cut order. |
| Tiled.BuildTilesPrefix | 24-tile-movement/main.py:48-63 | Loading one more tileset leaves every earlier entry where it was. |
| Tiled.BuildTilesRun | 24-tile-movement/main.py:47-63 | Cut `k` of tileset `j` is entry 1 + (the tile count of the tilesets before `j`) + `k`: each tileset owns its run of indices, in load order. |
| Tiled.BuildTilesAtlas | 24-tile-movement/main.py:47-63 | The tiles list is `None` followed by each tileset's cuts in load order, and the tile count is the number of those cuts. |
| Tiled.AtlasRun | 24-tile-movement/main.py:47-63 | In a list built by appending runs in order, cut `k` of run `j` sits after `None` and the runs before `j`. |
| Tiled.SingleSheetAtlas | 11-tilemap/main.py:53-57 | The list has 1 + (H // th)·(W // tw) entries. Entry k ≥ 1 is column (k-1) % cols and row (k-1) // cols of the sheet. |
| Tiled.PyIndex | 11-tilemap/main.py:76 | Python `s[i]`: defined iff -len ≤ i < len, with negative indices counting from the end. |
| Tiled.GetIndexBijection | 24-tile-movement/main.py:103-104 | Row-major indexing maps the cells of a w×h map one-to-one onto 0..w·h-1. `(i % w, i // w)` is its inverse. |
| Tiled.GetTile | 24-tile-movement/main.py:106-107 | A missing layer raises. Any value read comes from the layer. |
| Tiled.GetTileInside | 24-tile-movement/main.py:106-107 | On a well-formed map, every cell inside the map reads `layer[x + y·width]`. |
| PyStr.Split | 24-tile-movement/main.py:75 | `str.split()` yields only non-empty, whitespace-free words. |
| PyStr.SplitSpaceCons | 24-tile-movement/main.py:75 | A whitespace character separates words: the words of `a + c + b` are those of `a`, then those of `b`. |
| PyStr.SplitWord | 24-tile-movement/main.py:75 | A single word is split into itself. |
| PyStr.SplitJoin | 03-text-variable/main.py:81 | Splitting words joined by single spaces gives the words back. |
| PyStr.SplitOn | 28-map-triggers/main.py:103 | `s.split(',')`: at least one part, no part holds the separator, and joining the parts with it gives `s` back. |
| PyStr.SplitOnJoin | 28-map-triggers/main.py:103 | Splitting on a separator that no part contains undoes the join. |
| PyStr.SplitOnAppend | 28-map-triggers/main.py:103 | The pieces of `a + sep + b` are those of `a`, then those of `b`. |
| PyStr.StripPadded | 28-map-triggers/main.py:104 | Stripping whitespace around a word gives the word back, as `int` does before it parses. |
| PyStr.ParseIntToString | 28-map-triggers/main.py:104 | `int(str(n)) == n` for every integer. |
| PyStr.ParseInt | 28-map-triggers/main.py:104 | An all-whitespace token is rejected. |
| PyStr.RIndexSpace | 02-text-monospaced/main.py:72 | `rindex(' ', 0, end)`: the last space before `end`, or the `ValueError` when there is none. |
| Grid.RowMajor | 18-tilemap-layers/main.py:81-82 | The nested `range` loops visit every cell of the rectangle exactly once, in row-major order. |
| Grid.RowMajorAt | 11-tilemap/main.py:54-55 | Step `k` of the walk is column `k % w` and row `k // w`. |
| Grid.Collect | 18-tilemap-layers/main.py:81-87 | The draw loop succeeds iff every cell's step does. A failure is the error of one of its failing cells. Its blits are exactly those the cells produce. |
| Grid.CollectOne | 18-tilemap-layers/main.py:83-87 | One cell raises its step's error, blits its tile, or draws nothing. |
| Grid.CollectAppend | 28-map-triggers/main.py:224-234 | The loop over `a + b` is the loop over `a`, then over `b`. The blits come in cell order, and the error raised is the earlier part's. |
| Grid.CollectFirst | 30-smooth-scrolling/main.py:157-170 | The error raised is the first failing cell's: every cell before it succeeded. |
| Grid.CollectRows | 18-tilemap-layers/main.py:81-82 | The outer loop draws row `y0` in full before the later rows. |
| Grid.CollectRowCells | 18-tilemap-layers/main.py:82-87 | The inner loop draws the leftmost cell of a row first. |
| Grid.CollectRect | 18-tilemap-layers/main.py:81-87 | When every cell's step succeeds with a known outcome, the loop blits exactly those outcomes. |
| Viewport.ViewLeft | 18-tilemap-layers/main.py:113-117 | One tile left, never below column 0. |
| Viewport.ViewRight | 18-tilemap-layers/main.py:119-123 | One tile right iff the view still fits the map; otherwise the view is unchanged. |
| Viewport.ViewUp | 18-tilemap-layers/main.py:125-129 | One tile up, never above row 0. |
| Viewport.ViewDown | 18-tilemap-layers/main.py:131-135 | One tile down iff the view still fits the map; otherwise the view is unchanged. |
| Viewport.MovesKeepInMap | 11-tilemap/main.py:101-123 | All four moves keep the view inside the map. |
| Viewport.MovesUndo | 18-tilemap-layers/main.py:113-135 | Away from the edges, left and right undo each other, and so do up and down. |
| Viewport.InitialView | 18-tilemap-layers/main.py:100 | The first view is the largest whole number of tiles that fits the screen. |
| Viewport.RenderCell | 18-tilemap-layers/main.py:83-87 | A cell reading past the layer raises `IndexError`. A blit is the cell's tile at its screen rectangle, and its tile is an image. |
| Viewport.RenderLayer | 18-tilemap-layers/main.py:79-87 | The layer is read inside the loops, so a missing layer raises `KeyError` iff the view has at least one cell. An empty view draws nothing, whatever the layer. |
| Viewport.RenderFindsLayer | 18-tilemap-layers/main.py:81-87 | Once the layer is found, a render fails only on a bad index. |
| Viewport.RenderInMap | 18-tilemap-layers/main.py:79-90 | With row-major indexing, a view inside the map renders without error and blits exactly the non-empty tiles under its cells. |
| Viewport.RenderCellVisible | 18-tilemap-layers/main.py:83-90 | With row-major indexing, a view cell inside the map draws its tile without error, and nothing for tile 0. |
| Viewport.RenderSingleOverruns | 11-tilemap/main.py:72-79 | As written, rendering a view that covers the bottom-right cell reads one past the layer and raises. |
| Viewport.RenderSingleTwoByOne | 11-tilemap/main.py:76 | A whole 2×1 map already fails. |
| Viewport.RenderSingleTwoByOneCells | 11-tilemap/main.py:76 | On that map, the first cell draws the second entry's tile and the second cell reads past the end. |
| Camera.NewCamera | 30-smooth-scrolling/main.py:101-117 | A new camera is at (0, 0) with no tiles across, edge tile 0, zero offsets, scale 1 and an empty cache. |
| Camera.SetViewport | 28-map-triggers/main.py:197-203 | Tile counts are the viewport's pixel size floor-divided by the tile size. Nothing else changes. |
| Camera.SetPosition | 28-map-triggers/main.py:205-207 | Moves the camera and changes nothing else. |
| Camera.TileIndexAtReads | 28-map-triggers/main.py:219-229 | Draw cell (x, y) shows map tile (cam.x − tw//2 + x, cam.y − th//2 + y): `get_tile` on the map and the edge tile off it. |
| Camera.GetRect | 27-scaled-tiles/main.py:163-168 | The avatar rectangle is one tile times the scale. |
| Camera.DrawCell | 28-map-triggers/main.py:224-234 | A failed lookup raises. With the `!= 0` test, tile 0 draws nothing. A blit is the cell's own tile at its offset screen rectangle. |
| Camera.DrawSmoothCells | 30-smooth-scrolling/main.py:157-158 | The smooth-scrolling draw visits rows −1..tile_height+1 and columns −1..tile_width, in row-major order. |
| Camera.DrawCellShown | 30-smooth-scrolling/main.py:159-170 | On a well-formed map, each cell either draws its non-zero tile or nothing. |
| Camera.DrawShowsNonEmpty | 30-smooth-scrolling/main.py:153-170 | With tile 0 skipped, the draw never raises and blits exactly the non-zero tiles of its cells. |
| Camera.DrawTriggersFailsOnEmpty | 28-map-triggers/main.py:230-234 | As written, `is not None` lets tile 0 through, so a visible tile 0 makes the draw fail. |
| Camera.DrawNeverBlitsEmpty | 30-smooth-scrolling/main.py:165-170 | The draws that test `!= 0` never blit tile 0. |
| Camera.CentreCellIsCamera | 28-map-triggers/main.py:212-229 | The middle draw cell is the camera's own map tile, drawn where `get_rect` puts the avatar. |
| Camera.SetOffset | 30-smooth-scrolling/main.py:131-142 | On each axis on its own: a whole number of tiles moves the camera back by that many and zeroes the offset. Any other amount becomes the offset. |
| Camera.KeyDelta | 30-smooth-scrolling/main.py:223-233 | The step is in {−1, 0, 1}, and down or right wins over up or left. |
| Camera.UpdateSmooth | 30-smooth-scrolling/main.py:213-239 | `get_tile`'s failure is the only error. On a walkable tile the view scrolls exactly one pixel in each key direction, and only the position and offsets change. On any other tile nothing moves. |
| Camera.Nudge | 30-smooth-scrolling/main.py:131-142 | `set_offset(offset − d)` moves the map pixel under the avatar by exactly `d`, whether or not it realigns to a whole tile. Nothing else changes. |
| Camera.SmoothLeftChecksTwoBack | 30-smooth-scrolling/main.py:235-239 | As written, the lookup mirrors the offset. Part way through a step right, a step left is decided by column x − 2, while the avatar stays within columns x and x + 1. |
| Camera.NudgeKeepsOffsetInTile | 30-smooth-scrolling/main.py:131-142 | A nudge from offsets inside one tile keeps them inside one tile. |
| Camera.UpdateSmoothKeepsOffsetInTile | 30-smooth-scrolling/main.py:218-239 | Every update keeps \|offset\| below the tile size. |
| Camera.NudgeRightShift | 30-smooth-scrolling/main.py:232-239 | Right-steps short of a whole tile only grow the offset. |
| Camera.RightStepsAdvanceOneTile | 30-smooth-scrolling/main.py:232-239 | tile_width walkable right-steps from an aligned camera move it exactly one tile right, aligned again. |
| ScaledCamera.SetScale | 27-scaled-tiles/main.py:137-144 | Sets the scale and function, and always empties the cache. |
| ScaledCamera.Rescale | 27-scaled-tiles/main.py:150-158 | A scaled tile is twice the tile's size. A bad index, a `None` tile or a missing function raises. |
| ScaledCamera.GetScaledTile | 27-scaled-tiles/main.py:146-161 | A hit returns the cached tile and leaves the cache unchanged. A miss adds exactly that one key. |
| ScaledCamera.GetScaledTileAgrees | 27-scaled-tiles/main.py:146-161 | With a sound cache, the memo is invisible and stays sound. |
| ScaledCamera.ScaledTargetTwo | 27-scaled-tiles/main.py:189-192 | At scale 2, cell (x, y) is placed at viewport origin + (x·tw·2, y·th·2). |
| ScaledCamera.DrawCellPlain | 27-scaled-tiles/main.py:178-195 | A failed lookup raises. A scale other than 1 or 2 raises. A blit is placed at the cell's scaled position. |
| ScaledCamera.DrawCellCached | 27-scaled-tiles/main.py:182-195 | Only scale 2 touches the cache, and it only grows. |
| ScaledCamera.DrawCellAgrees | 27-scaled-tiles/main.py:182-195 | One cached step does what the cache-free step does. |
| ScaledCamera.DrawCells | 27-scaled-tiles/main.py:174-195 | The cache only grows, and it is untouched unless the scale is 2. |
| ScaledCamera.DrawCellsAgrees | 27-scaled-tiles/main.py:174-195 | The cached loop blits and fails exactly like the cache-free loop, and keeps the cache sound. |
| ScaledCamera.DrawScaledAgrees | 27-scaled-tiles/main.py:170-195 | The scaled draw, cache included, agrees with the cache-free draw. |
| ScaledCamera.PlainBlitsPlaced | 27-scaled-tiles/main.py:174-193 | Every blit is some grid cell's tile at its scaled position. |
| ScaledCamera.DrawScaledPlaced | 27-scaled-tiles/main.py:170-193 | Every blit of a successful draw is some grid cell's tile at its scaled position. |
| ScaledCamera.OtherScalesFail | 27-scaled-tiles/main.py:194-195 | Any other scale raises once a cell is drawn. |
| ScaledCamera.NextMode | 27-scaled-tiles/main.py:292-295 | Space steps the mode 0→1→2→3→0. |
| ScaledCamera.ModeScale | 27-scaled-tiles/main.py:297-304 | Mode 0 is scale 1 with no function. Every other mode is scale 2 with a function. |
| ScaledCamera.PressSpace | 27-scaled-tiles/main.py:291-304 | A press advances the mode, then applies its scale. |
| ScaledCamera.SpaceCycles | 27-scaled-tiles/main.py:291-304 | From a valid mode, a press lands on a valid mode with an empty cache. Four presses, each from the camera the previous one left, return to the starting mode and its scaling with an empty cache, the rest of the camera untouched. |
| ScaledCamera.FirstPressScales | 27-scaled-tiles/main.py:298-300 | The first press from mode 0 selects `scale` at 2×. |
| Triggers.TriggerEnter | 28-map-triggers/main.py:39-43 | A trigger without an enter function does nothing. Otherwise the function is called once with (x, y, actor). |
| Triggers.TriggerExit | 28-map-triggers/main.py:45-49 | A trigger without an exit function does nothing. Otherwise the function is called once with (x, y, actor). |
| Triggers.NoTriggers | 28-map-triggers/main.py:55-57 | A new map has no functions and no triggers. |
| Triggers.AddOnEnter | 28-map-triggers/main.py:125-133 | The function is registered after every earlier one, and nothing else changes. |
| Triggers.AddOnExit | 28-map-triggers/main.py:135-143 | The function is registered after every earlier one, and nothing else changes. |
| Triggers.AddTrigger | 28-map-triggers/main.py:145-155 | Sets the trigger at (x, y) and keeps every other tile's trigger. |
| Triggers.AddTriggerLastWins | 28-map-triggers/main.py:148-155 | A second `add_trigger` at the same tile replaces the first. |
| Triggers.AddTriggerCommutes | 28-map-triggers/main.py:155 | Triggers at different tiles can be added in either order. |
| Triggers.CallAll | 28-map-triggers/main.py:157-163 | Every registered function is called exactly once, in registration order, with the same (x, y, actor). |
| Triggers.CallAllAppend | 28-map-triggers/main.py:157-159 | One more function adds exactly its own call, last. |
| Triggers.EnterMapAfterAdd | 28-map-triggers/main.py:125-163 | Registering a map function adds exactly its call at the end of `enter_map`/`exit_map`. |
| Triggers.EnterTile | 28-map-triggers/main.py:165-169 | A tile without a trigger does nothing. Otherwise its trigger's `on_enter` runs. |
| Triggers.ExitTile | 28-map-triggers/main.py:171-175 | A tile without a trigger does nothing. Otherwise its trigger's `on_exit` runs. |
| Triggers.TileEventsFromTable | 28-map-triggers/main.py:165-175 | Entering or leaving a tile adds at most one call, and only that tile's own trigger. |
| Triggers.Step | 28-map-triggers/main.py:297-305 | A held, in-bounds direction with `Unwalkable` 0 fires the old tile's exit, moves, then fires the new tile's enter. Any other tile value leaves everything unchanged. A failed lookup raises. |
| Triggers.StepOnMap | 28-map-triggers/main.py:297-334 | From the map, a step never raises, stays on the map, moves at most one tile and logs only trigger calls. |
| Triggers.UpdateOnMap | 28-map-triggers/main.py:292-334 | A whole update never raises, keeps the camera on the map and only logs tile-trigger calls. |
| Triggers.UpdateIdle | 28-map-triggers/main.py:297-334 | With no key held, an update changes nothing. |
| Triggers.AddTriggers | 28-map-triggers/main.py:265-267 | Every listed tile gets the trigger, and every other tile keeps its own. |
| Triggers.Garden | 28-map-triggers/main.py:263-267 | The garden covers exactly (22..27, 12..14). |
| Triggers.CentreTriggers | 28-map-triggers/main.py:254-261 | The start-up table around the centre tile and the two map-enter functions. |
| Triggers.DemoSetup | 28-map-triggers/main.py:253-271 | The demo's table and its start-up `enter_map` calls, in registration order. |
| Sprite.Frames | 24-tile-movement/main.py:145-153 | Every animation has at least one frame. |
| Sprite.NewSprite | 24-tile-movement/main.py:157-166 | A new sprite walks, faces forward and starts on frame 1, a valid frame. |
| Sprite.CheckFrame | 24-tile-movement/main.py:202-204 | A frame past the animation's end goes back to 0. A valid frame is kept. |
| Sprite.NextFrame | 24-tile-movement/main.py:206-208 | The frame advances modulo the animation's length and stays valid. |
| Sprite.SetFacing | 24-tile-movement/main.py:210-212 | Turning keeps a valid frame. |
| Sprite.SetAnimation | 24-tile-movement/main.py:214-216 | A frame the new animation has is kept. Afterwards the frame is valid. |
| Sprite.IdleIsFrameZero | 24-tile-movement/main.py:214-216 | Switching to `idle` lands on frame 0. |
| Sprite.NextFramesAt | 24-tile-movement/main.py:206-208 | n frames advance the counter by n modulo the length. |
| Sprite.NextFramesCycle | 24-tile-movement/main.py:206-208 | `FRAMES[animation]` calls of `next_frame` return the counter to its start. |
| Sprite.FrameRect | 24-tile-movement/main.py:170-200 | Frame i of an animation has a cut-out iff −`FRAMES[animation]` ≤ i < `FRAMES[animation]`, as Python list indexing allows. A negative i is frame i + `FRAMES[animation]`. Frame i ≥ 0 is the 64 × 64 cell at column i. |
| Sprite.GetTextureValid | 24-tile-movement/main.py:218-219 | `get_texture` succeeds iff the frame is valid or counts back from the end (−FRAMES ≤ frame < 0). A negative frame gives the texture at frame + FRAMES. |
| Sprite.FrameRectsDistinct | 24-tile-movement/main.py:172-183 | The first five animations' frames are distinct cut-outs: different list positions give different rectangles. |
| Sprite.SharedFrames | 24-tile-movement/main.py:185-200 | `hurt` is the same in every facing, and `idle` is `walk`'s first frame. |
| TileWalk.Teleport | 24-tile-movement/main.py:361-365 | Teleporting puts the entity on the tile with both offsets 0. |
| TileWalk.WaitPick | 24-tile-movement/main.py:263-282 | At most one unit direction is picked, with priority up > down > left > right. |
| TileWalk.Clamp | 24-tile-movement/main.py:310-318 | Below 0 becomes 0. At or past the edge becomes the current coordinate. |
| TileWalk.WalkEnter | 24-tile-movement/main.py:294-318 | Entering a walk sets the walk animation and keeps the direction. Up faces away and targets the clamped tile above; down faces forward and targets below; left and right face and target sideways. No direction keeps the facing. A valid frame stays valid. |
| TileWalk.WalkTargetOnMap | 24-tile-movement/main.py:297-318 | The target is on the map and differs from the entity's tile in at most one coordinate, by at most one. |
| TileWalk.WalkIntoEdge | 24-tile-movement/main.py:310-318 | Walking into an edge targets the current tile. |
| TileWalk.WaitEnter | 24-tile-movement/main.py:257-258 | Waiting switches to `idle` on its only frame and keeps the facing, position and offsets. |
| TileWalk.TickKeepsGood | 24-tile-movement/main.py:232-346 | Every machine step keeps the entity on the map with a valid frame and an on-map walk target. |
| TileWalk.WalkToSelfEnds | 24-tile-movement/main.py:324-325 | A walk to the current tile returns to Wait at once. |
| TileWalk.WalkEndsOnTarget | 24-tile-movement/main.py:341-344 | A finished walk leaves the entity on the target with both offsets 0. |
| TileWalk.WalkRightPartial | 24-tile-movement/main.py:328-339 | Part way through a walk, each due tick grows the offset by one. |
| TileWalk.WalkRightArrives | 24-tile-movement/main.py:328-344 | A walk one tile right takes exactly tile_width due ticks and ends aligned on the target. |
| TileWalk.WaitThenWalkRight | 24-tile-movement/main.py:263-344 | Holding right while waiting enters a walk to the next tile, facing right. tile_width due ticks later the entity waits on that tile, aligned and idle. |
| TileWalk.DemoStart | 24-tile-movement/main.py:388-393 | The demo starts waiting at (10, 10) on `idle` frame 0. |
| Movement.Walked | 19-simple-lighting/main.py:192-211 | One step turns the sprite, walks, and moves one pixel by the facing. |
| Movement.PriorityStep | 19-simple-lighting/main.py:189-211 | Nothing held means idle. Otherwise the first held direction in up > down > left > right moves one pixel. |
| Movement.AxisStep | 21-blocked-sprite/main.py:206-227 | Up beats down, left beats right, and both axes may move. The horizontal facing wins, and the animation is idle iff nothing is held. |
| Movement.IndependentStepMoves | 17-sprite-joystick/main.py:217-239 | Opposite keys cancel. The facing is that of the last active direction. |
| Movement.ClampChain | 19-simple-lighting/main.py:213-221 | At most one clamp applies per update, and an on-screen position is kept. |
| Movement.ClampPerAxis | 21-blocked-sprite/main.py:229-237 | The per-axis clamp always lands on the screen and keeps an axis that is already in range. |
| Movement.ChainAfterOneAxis | 19-simple-lighting/main.py:192-221 | After a one-axis, one-pixel move from on screen, the chain is enough. |
| Movement.Update19Keeps | 19-simple-lighting/main.py:183-226 | Sara stays on the screen with a valid frame. With nothing held she idles in place. |
| Movement.RevertIfBlocked | 21-blocked-sprite/main.py:239-247 | The feet on any block's cell reverts the position. |
| Movement.Update21 | 21-blocked-sprite/main.py:197-252 | The frame stays valid. Sara either stays put or ends off every block. |
| Movement.Update21AvoidsBlocks | 21-blocked-sprite/main.py:239-247 | The feet never end on a block they were not already on. |
| Movement.Update21ChainDrifts | 21-blocked-sprite/main.py:229-237 | As written, up and left at the top-left corner walk Sara off the top. |
| Movement.Update21PerAxisOnScreen | 21-blocked-sprite/main.py:229-237 | With the per-axis clamp, Sara always stays on the screen. |
| Movement.JoystickAfter | 17-sprite-joystick/main.py:187-190 | After the hot-plug checks, a joystick is attached iff one is connected. |
| Movement.ReadGamepad | 17-sprite-joystick/main.py:193-210 | `up` is set by hat or stick, and `down` only when `up` is not. Left and right work the same way. |
| Movement.ReadReleasedGamepad | 17-sprite-joystick/main.py:197-210 | From released flags, each flag is set iff its direction is read and the other one is not. |
| Movement.Update17 | 17-sprite-joystick/main.py:186-258 | Every gamepad flag is cleared. The joystick tracks the connection. The frame stays valid. |
| Movement.Update17UpDownCancel | 17-sprite-joystick/main.py:220-229 | Up and down together leave the row unchanged. |
| Movement.Update17ChainDrifts | 17-sprite-joystick/main.py:245-253 | As written, up and left at the corner walk Sara off the top. |
| Movement.Update17PerAxisOnScreen | 17-sprite-joystick/main.py:245-253 | With the per-axis clamp, Sara always stays on the screen. |
| Movement.ClampShift | 23-sprite-unwalkables/main.py:302-314 | A single elif chain: an overflow puts Sara 32 pixels inside and shifts the view by one tile. |
| Movement.Lookup | 23-sprite-unwalkables/main.py:101-105 | With no extra offset, it is `get_tile`. |
| Movement.Update23 | 23-sprite-unwalkables/main.py:263-330 | The move is kept unless the feet crossed onto an unwalkable tile, in which case it reverts. A failed lookup raises. The view follows the clamp. |
| Movement.Update23KeepsOnScreen | 23-sprite-unwalkables/main.py:302-314 | Sara stays on the screen with a valid frame. |
| Movement.Update23CheckFixed | 23-sprite-unwalkables/main.py:316-326 | With row-major indexing, a crossing onto an unwalkable tile reverts and a crossing onto a walkable one is kept. |
| Movement.LookupAsWritten | 23-sprite-unwalkables/main.py:101-102 | As written, the check reads the right-hand neighbour. It raises at the bottom-right cell. |
| Movement.UnwalkableNeighbour | 23-sprite-unwalkables/main.py:101-102 | On a 2×1 map, the unwalkable left cell reads as walkable. The check reads data coordinates; the drawn map shares the same shift. |
| TextWrap.Trim | 03-text-variable/main.py:95-96 | At most `max_lines` lines remain, and only the oldest are dropped. |
| TextWrap.TrimToHeight | 29-conversation-dialog/main.py:130-131 | The lines kept fit the height, they are the newest ones, and no more are dropped than needed. |
| TextWrap.GreedyJoin | 03-text-variable/main.py:81-93 | No word is lost, changed or reordered. |
| TextWrap.GreedyFirst | 06-ui-dialog/main.py:208-216 | The first line starts with the current line. |
| TextWrap.GreedyMaximal | 03-text-variable/main.py:84-91 | A line breaks only when the strict `<` test fails for the next word. |
| TextWrap.GreedyWideAlone | 03-text-variable/main.py:82-90 | An over-wide word is emitted on a line by itself. |
| TextWrap.WrapVariable | 06-ui-dialog/main.py:203-219 | A line that fits is kept whole. A wider line with no words raises. Otherwise the words are kept in order. |
| TextWrap.AddTextVariable | 03-text-variable/main.py:76-96 | The result has at most `max_lines` lines, the newest ones. It fails iff the wrap does. |
| TextWrap.ColumnWrap | 02-text-monospaced/main.py:67-75 | A short line is kept whole. Each split drops exactly one space, so joining with spaces rebuilds the line. Inner chunks are shorter than `max_columns` and the last is at most that long. No space to break at raises. |
| TextWrap.AddTextMono | 02-text-monospaced/main.py:67-78 | The result has at most `max_lines` lines, and it fails iff the column wrap does. |
| TextWrap.Pieces | 08-text-styled/main.py:102-111 | One piece per word, with a trailing space, in order. |
| TextWrap.StyledShape | 08-text-styled/main.py:113-123 | Pieces keep their order. A line of two or more pieces is narrower than the box. Every line break is forced: the next line's first piece would not have fit. |
| TextWrap.StyledFlatten | 08-text-styled/main.py:113-123 | The lines, concatenated, are the pieces in order. |
| TextWrap.StyledFits | 08-text-styled/main.py:115-120 | A piece joins a line only while the line stays narrower than the box. |
| TextWrap.StyledMaximal | 08-text-styled/main.py:115-120 | Conversely, a new line starts only when the `<` test fails: each line's width plus the next line's first piece reaches the box width. |
| TextWrap.StyledGreedyAt | 08-text-styled/main.py:115-120 | The break rule, line by line: for every line but the last, the next line's first piece did not fit after it. |
| TextWrap.StyledWideFirst | 08-text-styled/main.py:100-120 | A first piece too wide for the box pushes an empty line before it. |
| TextWrap.AddTextStyled | 08-text-styled/main.py:99-126 | At most `max_lines` lines remain, the newest ones. |
| TextWrap.StyledKeepsWords | 08-text-styled/main.py:102-123 | The pieces are the split words in order. |
| Dialog.Layout | 29-conversation-dialog/main.py:57-95 | Corners are placed at the frame's corners, and the middle bars fill between them. The top-right x is rect.x + rect.width − its width. |
| Dialog.TextAreaFits | 29-conversation-dialog/main.py:46-51 | The text area ends where the top-right corner begins. The prompt ends where the bottom bar begins. |
| Dialog.AddText | 29-conversation-dialog/main.py:111-131 | After wrapping, the newest lines that fit the height are kept. |
| Dialog.Answer | 29-conversation-dialog/main.py:155-158 | The table entry, or "I don't know anything about X.". |
| Dialog.Question | 29-conversation-dialog/main.py:151 | `input[2:]`. |
| Dialog.Keydown | 29-conversation-dialog/main.py:149-168 | Only Return touches the text or can fail. Backspace drops the last typed character and never eats into the prompt. a–z type one capital letter. Other keys type their own character, and codes `chr` rejects are ignored. Return fails iff the line or its answer has no words. Otherwise it leaves a fresh prompt and text that fits: the newest lines of the old text, the wrapped line and the wrapped answer. |
| Dialog.Edit | 29-conversation-dialog/main.py:158-168 | The editing keys change the prompt line alone, as above. |
| Dialog.Submit | 29-conversation-dialog/main.py:149-157 | Return fails iff a wrap fails. Otherwise the newest lines of text, typed line and answer that fit, under a fresh prompt. |
| Dialog.KeydownKeepsPrompt | 29-conversation-dialog/main.py:149-168 | From an intact prompt and text that fits, every key succeeds, keeps the prompt and keeps the text fitting. |
| Dialog.AnswerHasWords | 29-conversation-dialog/main.py:22-27 | Every reply has a word to wrap. |
| Dialog.TypeName | 29-conversation-dialog/main.py:162-163 | Typing `name` shows `> NAME`, whose answer is the table's. |
| TextEntry.Key | 04-text-entry/main.py:90-103 | Escape quits. Return moves the cursor line into the history. Codes outside 33..127 append `?`. Any other key appends `chr(key)`. |
| TextEntry.KeyKeepsGood | 04-text-entry/main.py:93-99 | The history stays below `max_lines`. |
| TextEntry.KeysKeepGood | 04-text-entry/main.py:87-103 | From an empty start, any run of keys keeps at most `max_lines − 1` finished lines. |
| Widgets.CentreOffset | 09-ui-button/main.py:33-36 | Text is centred: `((w − tw) // 2, (h − th) // 2)`. |
| Widgets.CentreMargins | 10-ui-spinbox/main.py:80-81 | The margins differ by at most one pixel, and the extra pixel goes right or down. |
| Widgets.NewButton | 09-ui-button/main.py:24-41 | The button takes its image's size with the text centred, and neither flag is set. |
| Widgets.ButtonMove | 09-ui-button/main.py:59-60 | `intersected` is set iff the point is inside, and nothing else changes. |
| Widgets.ButtonPress | 09-ui-button/main.py:62-68 | Inside, the button is selected and the handler fires. Outside, nothing happens. |
| Widgets.ButtonRelease | 09-ui-button/main.py:70-74 | Inside, the button is deselected. Outside, nothing changes. |
| Widgets.ClickRoundTrip | 09-ui-button/main.py:62-74 | Press then release at the same point restores the button and fires once. |
| Widgets.ReleaseOutsideStaysSelected | 09-ui-button/main.py:70-74 | A release elsewhere leaves the button selected. |
| Widgets.SetText | 10-ui-spinbox/main.py:74-81 | The label's text is measured and centred in its box. |
| Widgets.SetTextIdempotent | 10-ui-spinbox/main.py:74-81 | Setting the same text twice is the same as setting it once. |
| Widgets.NewSpinner | 10-ui-spinbox/main.py:93-116 | The spinner starts on value 0 with its label showing it. Width is the sum of the three parts and height is their maximum. No values is an `IndexError`. |
| Widgets.Decrease | 10-ui-spinbox/main.py:118-122 | One value back, wrapping from 0 to len−1. The label shows the new value. |
| Widgets.Increase | 10-ui-spinbox/main.py:124-128 | One value forward, wrapping from len−1 to 0. The label shows the new value. |
| Widgets.IncreaseDecrease | 10-ui-spinbox/main.py:118-128 | Increase and decrease undo each other. |
| Widgets.SpinnerPress | 10-ui-spinbox/main.py:135-140 | A press outside does nothing. Each arrow under the point steps once. The index stays in range and the label keeps showing it. |
| Widgets.PressOneStep | 10-ui-spinbox/main.py:135-140 | With the arrows apart, a press moves at most one step. |
| Widgets.NewSpinnerArrowsApart | 10-ui-spinbox/main.py:106-113 | A new spinner's arrows do not overlap. |
| FancyText.OpenAt | 22-fancy-text/main.py:32-35 | The opening tag at a position, with its `#hex` argument for the colour tags. |
| FancyText.MatchAt | 22-fancy-text/main.py:32-35 | The tag pair opening at a position, closed by the last closing tag after it. |
| FancyText.TagMatch | 22-fancy-text/main.py:82 | Any match found is a real tag pair in the word. |
| FancyText.TagMatchSpec | 22-fancy-text/main.py:32-35 | The regex matches iff the word holds a tag pair. It picks the rightmost opening tag, then the rightmost closing tag. |
| FancyText.TagMatchOnly | 22-fancy-text/main.py:32-35 | A word with just one tag pair is read as written. |
| FancyText.Untagged | 22-fancy-text/main.py:32-35 | A word no opening tag can start in does not match. |
| FancyText.Strip | 22-fancy-text/main.py:82-104 | An unmatched word is unchanged. A match removes exactly the two tags. |
| FancyText.Word | 22-fancy-text/main.py:76-106 | bg is stripped, then color, oblique and strong. Strong overrides oblique. Colours come from the tags or the view's defaults. |
| FancyText.PlainWord | 22-fancy-text/main.py:76-80 | A word without tags is stored unchanged in the default style and colours. |
| FancyText.StrongWord | 22-fancy-text/main.py:100-104 | `{s}x{/s}` is stored as `x` in the strong style. |
| FancyText.StrongMatch | 22-fancy-text/main.py:35 | `{s}x{/s}` matches the strong regex, and stripping it leaves `x`. |
| FancyText.AddText | 22-fancy-text/main.py:75-106 | One stored chunk per word, in order. |
| FancyText.AddPlainText | 22-fancy-text/main.py:75-106 | Plain words are stored word for word. |
| FancyText.LineSpacing | 22-fancy-text/main.py:44 | `int(h · 1.1)`. |
| FancyText.Next | 22-fancy-text/main.py:64-66 | A chunk starts a new line iff it would pass the right edge. |
| FancyText.Place | 22-fancy-text/main.py:56-73 | One position per chunk. The first follows the break rule from the pen. |
| FancyText.Draw | 22-fancy-text/main.py:54-73 | One position per stored chunk. |
| FancyText.PlaceStep | 22-fancy-text/main.py:64-73 | Each chunk follows its predecessor, width + space later, unless it wraps. |
| FancyText.PlaceInside | 22-fancy-text/main.py:64-67 | A chunk no wider than the view is drawn inside it horizontally. |
| FancyText.PlaceDown | 22-fancy-text/main.py:64-73 | Lines only move down, and no chunk is above the pen. |
| FancyText.Outline | 22-fancy-text/main.py:41 | `inflate(2, 2)` grows the rectangle by one pixel on every side. |
| FancyText.OutlineContains | 22-fancy-text/main.py:41 | The outline contains the view. |

## Left out

- Drawing is left out, along with everything else that touches pixels: `blit`, `fill`, `render_to`, `gfxdraw` and display flips. A blit is a value recording the tile and the target rectangle.
- Loading is left out. XML parsing with ElementTree and image loading become input records: the layer attributes and text, and each sheet's size.
- base64 (section 4 of RFC 4648) and zlib inflate (RFC 1950/1951) are an opaque function from the `<data>` text to bytes. Only the little-endian unpack is modelled.
- Font metrics and rescaling algorithms are abstract functions. A rescaled tile is recorded as twice the tile's size, whichever algorithm made it.
- `dt` accumulators are left out. Each `ticks > period` test becomes a `due` input.
- The floating-point demos are left out: fades, the FPS counter, the lighting distances, and the scrolling-texture, animated-icon and drop-shadow loops.
- Joystick polling is left out. Hat and axis values are inputs, and so is the device count.
- Random block positions and random fonts and colours are inputs.
- `pygame.Color` parsing of the tag colours is left out. The hex string is kept, so a code pygame would reject raises no error in the model.
- Event loops and `sys.exit` are left out. In the text-entry demo, Escape is the `None` of `TextEntry.Key`.
- Zero or negative tile sizes are left out, because the tile sizes are positive. The maps' own sizes come from their files.
- TextWrap.Trim: the line limit `maxLines` is a `nat`, so a negative `max_lines` is left out. With one, `while len(self.buff) > self.max_lines` never ends, even on an empty buffer (02-text-monospaced/main.py:77, 03-text-variable/main.py:95, 06-ui-dialog/main.py:221, 08-text-styled/main.py:125). Every demo sets a positive constant. `AddTextMono`, `AddTextVariable` and `AddTextStyled` inherit this.
- TextWrap.TrimToHeight: the text-area height is a `nat`, so a negative height is left out. The source's area is `mid-left.height − 2·font_height` (29-conversation-dialog/main.py:46-49), which is negative when the side bar is shorter than two font heights. `Dialog.TextRect` computes it as an `int`, but nothing ties it to `Box.textHeight`. At a negative height, `while len(self.text) * self.font_height > self.textrect.height` (29-conversation-dialog/main.py:130-131) never ends, even on an empty list. The demo's images give a positive height.
- Dialog.AddText: the same applies, because it trims to `Box.textHeight`, a `nat`.
- Tiled.CommaCsvRowsRoundTrip: stated for layers of at least one row and no empty row, which every map layer is. For an empty row, the comma-only reader hands a whitespace-only piece to `int`, which raises.
- PyStr.ParseInt: underscores and non-ASCII digits, which Python's `int` accepts, are treated as errors.
- Dialog.Keydown: key codes in the surrogate range, which `chr` accepts, are treated like the codes it rejects, because a Dafny `char` cannot hold them.
- Callbacks are numbered rather than called. What the demo's lambdas print is not modelled.
- Camera: the three demo copies share one `Camera` datatype. Each demo's draw is a separate function.
- Movement: the feet offset of the blocked-sprite and unwalkables demos is the float `width / 2`, which equals 32. The model uses the integer 32, and both demos' tiles are 32 pixels.
- Movement.Update23: the feet rectangles are compared as tile cells, which is equivalent because their size is fixed.
- Movement.Update23: reverting a blocked move restores Sara's position but not the viewport. This is also the source's behaviour.
- TileWalk.WalkEnter: the target starts from the entity's position when the walk is entered. The source reads it when the `WalkState` is built, which happens immediately before.
- FancyText.LineSpacing: `int(h * 1.1)` is taken to be `11h // 10`. The two differ only where the float product rounds across an integer, which does not happen for font heights.
- FancyText: Python's `.` in the tag regexes does not match a newline. Words come from `split()`, so they contain none.

## Findings

| source | as written | input that shows it | evidently intended | confidence | as-written member | corrected member |
|---|---|---|---|---|---|---|
| 11-tilemap/main.py:76 | render reads `layer_data[x + vx + (y + vy)·map_width + 1]` | a 2×1 map `[1, 1]` shown whole: cell (1, 0) reads index 2 | the row-major index without `+ 1`, as in the layers demo | high (not executed) | Viewport.RenderSingleTwoByOne | Viewport.RenderInMap |
| 23-sprite-unwalkables/main.py:101-102 | `get_index` returns `x + y·map_width + 1`. `render` (line 95) uses it too, so the drawn map and the walkability check agree with each other. Both show the layer shifted one entry, wrapping at row ends, and the last cell raises `IndexError` | a 2×1 `Unwalkable` layer `[1, 0]`: cell (0, 0) reads 0, its neighbour's value; the bottom-right cell reads past the layer | row-major `x + y·map_width` | high (not executed) | Movement.UnwalkableNeighbour | Movement.Update23CheckFixed |
| 28-map-triggers/main.py:230-234 | `if tile_idx is not None` is always true, so tile 0 sends `tiles[0] = None` to `blit` | any visible cell whose tile is 0, or an edge tile of 0 | `if tile_idx != 0`, as in the smooth-scrolling demo | medium (not executed) | Camera.DrawTriggersFailsOnEmpty | Camera.DrawNeverBlitsEmpty |
| 21-blocked-sprite/main.py:229-237 | the clamp is one `if/elif` chain, so an x clamp skips the y clamp | Sara at (0, 0) holding up and left: she ends at (0, −1), off the screen | clamp each axis on its own | medium (not executed) | Movement.Update21ChainDrifts | Movement.Update21PerAxisOnScreen |
| 17-sprite-joystick/main.py:245-253 | the same `if/elif` clamp chain | Sara at (0, 0) holding up and left: she ends at (0, −1) | clamp each axis on its own | medium (not executed) | Movement.Update17ChainDrifts | Movement.Update17PerAxisOnScreen |
