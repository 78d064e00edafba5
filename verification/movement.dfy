/** The per-tick movement of the free-walking sprite demos: Sara moves one
    pixel per update under the arrow keys (or a gamepad), is clamped to the
    1280 x 720 screen, and a move onto a blocked or unwalkable tile is
    taken back. Each demo has its own variant of the same update. */
module Movement {
  import opened Wrappers
  import opened Grid
  import opened Tiled
  import opened Sprite

  const SCREEN_WIDTH := 1280
  const SCREEN_HEIGHT := 720

  /** Where the feet are relative to the sprite's top-left corner. */
  const FEET_X := SIZE / 2
  const FEET_Y := SIZE - 2

  /** `TILE_SIZE` of the blocked-sprite demo. */
  const BLOCK := 32

  /** How far from the edge the unwalkables demo puts Sara back after it
      scrolls the view. */
  const MARGIN := 32

  /** Which directions are held (keyboard, gamepad, or both). */
  datatype Pad = Pad(up: bool, down: bool, left: bool, right: bool)

  const RELEASED := Pad(false, false, false, false)

  /** Sara: her top-left pixel and her sprite. */
  datatype Hero = Hero(x: int, y: int, sprite: Sprite)

  predicate Any(p: Pad) {
    p.up || p.down || p.left || p.right
  }

  /** The whole 64 x 64 sprite is on the screen. */
  predicate OnScreen(x: int, y: int) {
    0 <= x && x + SIZE <= SCREEN_WIDTH && 0 <= y && y + SIZE <= SCREEN_HEIGHT
  }

  predicate Good(h: Hero) {
    OnScreen(h.x, h.y) && ValidFrame(h.sprite)
  }

  /** The pixel step of a facing. */
  function Delta(f: Facing): (int, int) {
    match f
    case Away => (0, -1)
    case Forward => (0, 1)
    case FaceLeft => (-1, 0)
    case FaceRight => (1, 0)
  }

  /** The first held direction in the order up, down, left, right. */
  function FirstHeld(p: Pad): Option<Facing> {
    if p.up then Some(Away)
    else if p.down then Some(Forward)
    else if p.left then Some(FaceLeft)
    else if p.right then Some(FaceRight)
    else None
  }

  /** The last held direction in the order up, down, left, right. */
  function LastHeld(p: Pad): Option<Facing> {
    if p.right then Some(FaceRight)
    else if p.left then Some(FaceLeft)
    else if p.down then Some(Forward)
    else if p.up then Some(Away)
    else None
  }

  /** One walking step: turn to `f`, switch to `walk`, move by its delta. */
  function Walked(h: Hero, f: Facing): (r: Hero)
    ensures r.x == h.x + Delta(f).0 && r.y == h.y + Delta(f).1
    ensures r.sprite.facing == f && r.sprite.animation == Walk
    ensures h.sprite.frame >= 0 ==> ValidFrame(r.sprite)
  {
    Hero(h.x + Delta(f).0, h.y + Delta(f).1, SetAnimation(SetFacing(h.sprite, f), Walk))
  }

  // ------------------------------------------------ the key handlers

  /** The `if/elif` movement of the lighting and unwalkables demos: idle
      when nothing is held, else one step in the first held direction. */
  function PriorityStep(h: Hero, p: Pad): (r: Hero)
    ensures FirstHeld(p).None? ==> r == h.(sprite := SetAnimation(h.sprite, Idle))
    ensures FirstHeld(p).Some? ==>
      r.x == h.x + Delta(FirstHeld(p).value).0 && r.y == h.y + Delta(FirstHeld(p).value).1 &&
      r.sprite.facing == FirstHeld(p).value && r.sprite.animation == Walk
    ensures (r.x == h.x || r.y == h.y) && -1 <= r.x - h.x <= 1 && -1 <= r.y - h.y <= 1
    ensures h.sprite.frame >= 0 ==> ValidFrame(r.sprite)
  {
    var s := if !Any(p) then SetAnimation(h.sprite, Idle) else h.sprite;
    if p.up then Walked(h.(sprite := s), Away)
    else if p.down then Walked(h.(sprite := s), Forward)
    else if p.left then Walked(h.(sprite := s), FaceLeft)
    else if p.right then Walked(h.(sprite := s), FaceRight)
    else h.(sprite := s)
  }

  /** The blocked-sprite demo: the animation is chosen first, then up/down
      and left/right are two separate `if/elif` pairs, so a diagonal moves
      on both axes and the horizontal facing wins. */
  function AxisStep(h: Hero, p: Pad): (r: Hero)
    ensures r.y == h.y + (if p.up then -1 else if p.down then 1 else 0)
    ensures r.x == h.x + (if p.left then -1 else if p.right then 1 else 0)
    ensures r.sprite.animation == (if Any(p) then Walk else Idle)
    ensures r.sprite.facing ==
      (if p.left then FaceLeft else if p.right then FaceRight
       else if p.up then Away else if p.down then Forward else h.sprite.facing)
    ensures h.sprite.frame >= 0 ==> ValidFrame(r.sprite)
  {
    var s0 := SetAnimation(h.sprite, if Any(p) then Walk else Idle);
    var v := if p.up then Hero(h.x, h.y - 1, SetFacing(s0, Away))
             else if p.down then Hero(h.x, h.y + 1, SetFacing(s0, Forward))
             else h.(sprite := s0);
    if p.left then Hero(v.x - 1, v.y, SetFacing(v.sprite, FaceLeft))
    else if p.right then Hero(v.x + 1, v.y, SetFacing(v.sprite, FaceRight))
    else v
  }

  /** The joystick demo: four independent `if`s, each turning, switching
      to `walk` and stepping. */
  function IndependentStep(h: Hero, p: Pad): (r: Hero)
  {
    var a := if !Any(p) then h.(sprite := SetAnimation(h.sprite, Idle)) else h;
    var b := if p.up then Walked(a, Away) else a;
    var c := if p.down then Walked(b, Forward) else b;
    var d := if p.left then Walked(c, FaceLeft) else c;
    if p.right then Walked(d, FaceRight) else d
  }

  /** Opposite directions cancel, each axis moves by at most one pixel,
      and Sara ends up facing the last held direction. */
  lemma IndependentStepMoves(h: Hero, p: Pad)
    ensures IndependentStep(h, p).y == h.y - (if p.up then 1 else 0) + (if p.down then 1 else 0)
    ensures IndependentStep(h, p).x == h.x - (if p.left then 1 else 0) + (if p.right then 1 else 0)
    ensures LastHeld(p).Some? ==>
      IndependentStep(h, p).sprite.facing == LastHeld(p).value && IndependentStep(h, p).sprite.animation == Walk
    ensures LastHeld(p).None? ==> IndependentStep(h, p) == h.(sprite := SetAnimation(h.sprite, Idle))
    ensures h.sprite.frame >= 0 ==> ValidFrame(IndependentStep(h, p).sprite)
  {
  }

  // ------------------------------------------------ clamping

  /** The clamp of the demos, as written: one `if/elif` chain over the four
      edges, so at most one coordinate is corrected per update. */
  function ClampChain(x: int, y: int): (r: (int, int))
    ensures r.0 == x || r.1 == y
    ensures r.0 != x ==> (x < 0 && r.0 == 0) || (x + SIZE > SCREEN_WIDTH && r.0 == SCREEN_WIDTH - SIZE)
    ensures r.1 != y ==>
      && 0 <= x && x + SIZE <= SCREEN_WIDTH
      && ((y < 0 && r.1 == 0) || (y + SIZE > SCREEN_HEIGHT && r.1 == SCREEN_HEIGHT - SIZE))
    ensures OnScreen(x, y) ==> r == (x, y)
  {
    if x < 0 then (0, y)
    else if x + SIZE > SCREEN_WIDTH then (SCREEN_WIDTH - SIZE, y)
    else if y < 0 then (x, 0)
    else if y + SIZE > SCREEN_HEIGHT then (x, SCREEN_HEIGHT - SIZE)
    else (x, y)
  }

  /** The clamp the demos evidently intend: each axis on its own. */
  function ClampPerAxis(x: int, y: int): (r: (int, int))
    ensures OnScreen(r.0, r.1)
    ensures OnScreen(x, y) ==> r == (x, y)
    ensures 0 <= x <= SCREEN_WIDTH - SIZE ==> r.0 == x
    ensures 0 <= y <= SCREEN_HEIGHT - SIZE ==> r.1 == y
  {
    var cx := if x < 0 then 0 else if x + SIZE > SCREEN_WIDTH then SCREEN_WIDTH - SIZE else x;
    var cy := if y < 0 then 0 else if y + SIZE > SCREEN_HEIGHT then SCREEN_HEIGHT - SIZE else y;
    (cx, cy)
  }

  datatype ClampRule = Chain | PerAxis

  function Clamp(rule: ClampRule, x: int, y: int): (int, int) {
    match rule
    case Chain => ClampChain(x, y)
    case PerAxis => ClampPerAxis(x, y)
  }

  /** The chain is enough when only one axis moved by one pixel from a
      position on the screen. */
  lemma ChainAfterOneAxis(x0: int, y0: int, x: int, y: int)
    requires OnScreen(x0, y0)
    requires x == x0 || y == y0
    requires -1 <= x - x0 <= 1 && -1 <= y - y0 <= 1
    ensures OnScreen(ClampChain(x, y).0, ClampChain(x, y).1)
  {
  }

  // ------------------------------------------------ the lighting demo

  /** `Demo.update` of the lighting demo; `due` stands for the 1/12 s
      animation timer having run out. */
  function Update19(h: Hero, p: Pad, due: bool): Hero {
    var m := PriorityStep(h, p);
    var c := ClampChain(m.x, m.y);
    Hero(c.0, c.1, if due then NextFrame(m.sprite) else m.sprite)
  }

  /** Sara stays on the screen with a valid frame; with nothing held she
      stands still on the single `idle` frame. */
  lemma Update19Keeps(h: Hero, p: Pad, due: bool)
    requires Good(h)
    ensures Good(Update19(h, p, due))
    ensures !Any(p) ==> Update19(h, p, due) == Hero(h.x, h.y, Sprite(Idle, h.sprite.facing, 0))
  {
    var m := PriorityStep(h, p);
    ChainAfterOneAxis(h.x, h.y, m.x, m.y);
  }

  // ------------------------------------------------ the blocked-sprite demo

  /** The screen-aligned 32 x 32 cell holding the feet, as its top-left
      pixel. */
  function FeetBlock(x: int, y: int): Cell {
    Cell(((x + FEET_X) / BLOCK) * BLOCK, ((y + FEET_Y) / BLOCK) * BLOCK)
  }

  /** The loop over the blocks: each block on the feet cell puts the
      position back to `orig`. */
  function RevertIfBlocked(blocks: seq<Cell>, feet: Cell, cur: (int, int), orig: (int, int)): (r: (int, int))
    ensures r == (if feet in blocks then orig else cur)
    decreases |blocks|
  {
    if |blocks| == 0 then cur
    else
      assert feet in blocks <==> blocks[0] == feet || feet in blocks[1..];
      RevertIfBlocked(blocks[1..], feet, if blocks[0] == feet then orig else cur, orig)
  }

  /** `Demo.update` of the blocked-sprite demo, with the clamp rule as a
      parameter: `Chain` is the code as written. */
  function Update21(h: Hero, p: Pad, blocks: seq<Cell>, due: bool, rule: ClampRule): (r: Hero)
    ensures ValidFrame(h.sprite) ==> ValidFrame(r.sprite)
    ensures (r.x, r.y) == (h.x, h.y) || FeetBlock(r.x, r.y) !in blocks
  {
    var m := AxisStep(h, p);
    var c := Clamp(rule, m.x, m.y);
    var pos := RevertIfBlocked(blocks, FeetBlock(c.0, c.1), c, (h.x, h.y));
    Hero(pos.0, pos.1, if due then NextFrame(m.sprite) else m.sprite)
  }

  /** Sara's feet never end up on a block they were not already on. */
  lemma Update21AvoidsBlocks(h: Hero, p: Pad, blocks: seq<Cell>, due: bool, rule: ClampRule)
    requires FeetBlock(h.x, h.y) !in blocks
    ensures FeetBlock(Update21(h, p, blocks, due, rule).x, Update21(h, p, blocks, due, rule).y) !in blocks
  {
  }

  /** As written, holding up and left at the left edge walks Sara off the
      top of the screen: the chain corrects x and never reaches y. */
  lemma Update21ChainDrifts(h: Hero, due: bool)
    requires h.x == 0 && h.y <= 0
    ensures Update21(h, Pad(true, false, true, false), [], due, Chain).x == 0
    ensures Update21(h, Pad(true, false, true, false), [], due, Chain).y == h.y - 1
    ensures !OnScreen(Update21(h, Pad(true, false, true, false), [], due, Chain).x,
                      Update21(h, Pad(true, false, true, false), [], due, Chain).y)
  {
  }

  /** With each axis clamped on its own, Sara stays on the screen whatever
      is held and wherever the blocks are. */
  lemma Update21PerAxisOnScreen(h: Hero, p: Pad, blocks: seq<Cell>, due: bool)
    requires Good(h)
    ensures Good(Update21(h, p, blocks, due, PerAxis))
  {
  }

  // ------------------------------------------------ the joystick demo

  /** The device reads: stick axes and the D-pad hat. */
  datatype Stick = Stick(axisX: real, axisY: real, hatX: int, hatY: int)

  predicate StickUp(s: Stick) { s.hatY == 1 || s.axisY < -0.5 }
  predicate StickDown(s: Stick) { s.hatY == -1 || s.axisY > 0.5 }
  predicate StickLeft(s: Stick) { s.hatX == -1 || s.axisX < -0.5 }
  predicate StickRight(s: Stick) { s.hatX == 1 || s.axisX > 0.5 }

  /** The joystick slot after the hot-plug checks, given how many devices
      are connected. */
  function JoystickAfter(attached: bool, count: nat): (r: bool)
    ensures r <==> count > 0
  {
    var a := if !attached && count > 0 then true else attached;
    if a && count == 0 then false else a
  }

  /** The gamepad flags after reading the stick: a direction sets its flag
      and leaves the opposite one alone; neither clears both. */
  function ReadGamepad(g: Pad, s: Stick): (r: Pad)
    ensures StickUp(s) ==> r.up && r.down == g.down
    ensures !StickUp(s) && StickDown(s) ==> r.down && r.up == g.up
    ensures !StickUp(s) && !StickDown(s) ==> !r.up && !r.down
    ensures StickLeft(s) ==> r.left && r.right == g.right
    ensures !StickLeft(s) && StickRight(s) ==> r.right && r.left == g.left
    ensures !StickLeft(s) && !StickRight(s) ==> !r.left && !r.right
  {
    var ud := if StickUp(s) then (true, g.down) else if StickDown(s) then (g.up, true) else (false, false);
    var lr := if StickLeft(s) then (true, g.right) else if StickRight(s) then (g.left, true) else (false, false);
    Pad(ud.0, ud.1, lr.0, lr.1)
  }

  /** From released flags, `down` is set only when `up` is not, and
      `right` only when `left` is not. */
  lemma ReadReleasedGamepad(s: Stick)
    ensures ReadGamepad(RELEASED, s).up <==> StickUp(s)
    ensures ReadGamepad(RELEASED, s).down <==> !StickUp(s) && StickDown(s)
    ensures ReadGamepad(RELEASED, s).left <==> StickLeft(s)
    ensures ReadGamepad(RELEASED, s).right <==> !StickLeft(s) && StickRight(s)
  {
  }

  datatype Demo17 = Demo17(hero: Hero, joystick: bool, gamepad: Pad)

  /** `Demo.update` of the joystick demo, with the clamp rule as a
      parameter: `Chain` is the code as written. */
  function Update17(st: Demo17, keys: Pad, count: nat, stick: Stick, due: bool, rule: ClampRule): (r: Demo17)
    ensures r.gamepad == RELEASED
    ensures r.joystick <==> count > 0
    ensures ValidFrame(st.hero.sprite) ==> ValidFrame(r.hero.sprite)
  {
    var js := JoystickAfter(st.joystick, count);
    var g := if js then ReadGamepad(st.gamepad, stick) else st.gamepad;
    var go := Pad(keys.up || g.up, keys.down || g.down, keys.left || g.left, keys.right || g.right);
    var m := IndependentStep(st.hero, go);
    IndependentStepMoves(st.hero, go);
    var c := Clamp(rule, m.x, m.y);
    Demo17(Hero(c.0, c.1, if due then NextFrame(m.sprite) else m.sprite), js, RELEASED)
  }

  /** Holding up and down together leaves Sara's row where it was. */
  lemma Update17UpDownCancel(st: Demo17, keys: Pad, count: nat, stick: Stick, due: bool, rule: ClampRule)
    requires OnScreen(st.hero.x, st.hero.y)
    requires keys.up && keys.down
    ensures Update17(st, keys, count, stick, due, rule).hero.y == st.hero.y
  {
    var js := JoystickAfter(st.joystick, count);
    var g := if js then ReadGamepad(st.gamepad, stick) else st.gamepad;
    var go := Pad(keys.up || g.up, keys.down || g.down, keys.left || g.left, keys.right || g.right);
    IndependentStepMoves(st.hero, go);
  }

  /** As written, the joystick demo has the same corner drift: up and left
      at the left edge take Sara above the screen. */
  lemma Update17ChainDrifts(st: Demo17, count: nat, stick: Stick, due: bool)
    requires st.hero.x == 0 && st.hero.y <= 0
    requires st.gamepad == RELEASED && count == 0
    ensures Update17(st, Pad(true, false, true, false), count, stick, due, Chain).hero.x == 0
    ensures Update17(st, Pad(true, false, true, false), count, stick, due, Chain).hero.y == st.hero.y - 1
  {
    IndependentStepMoves(st.hero, Pad(true, false, true, false));
  }

  /** With each axis clamped on its own, Sara stays on the screen. */
  lemma Update17PerAxisOnScreen(st: Demo17, keys: Pad, count: nat, stick: Stick, due: bool)
    requires Good(st.hero)
    ensures Good(Update17(st, keys, count, stick, due, PerAxis).hero)
  {
  }

  // ------------------------------------------------ the unwalkables demo

  /** Sara plus the view rectangle, in tiles. */
  datatype Demo23 = Demo23(hero: Hero, view: Rect)

  /** The clamp of the unwalkables demo: the same `if/elif` chain, but an
      overflow puts Sara 32 pixels inside the edge and scrolls the view one
      tile that way. */
  function ClampShift(x: int, y: int, v: Rect): (r: (int, int, Rect))
    ensures r.0 == x || r.1 == y
    ensures x < 0 ==> r == (MARGIN, y, v.(x := v.x - 1))
    ensures 0 <= x && x + SIZE > SCREEN_WIDTH ==> r == (SCREEN_WIDTH - SIZE - MARGIN, y, v.(x := v.x + 1))
    ensures 0 <= x && x + SIZE <= SCREEN_WIDTH && y < 0 ==> r == (x, MARGIN, v.(y := v.y - 1))
    ensures 0 <= x && x + SIZE <= SCREEN_WIDTH && 0 <= y && y + SIZE > SCREEN_HEIGHT ==>
      r == (x, SCREEN_HEIGHT - SIZE - MARGIN, v.(y := v.y + 1))
    ensures OnScreen(x, y) ==> r == (x, y, v)
  {
    if x < 0 then (MARGIN, y, v.(x := v.x - 1))
    else if x + SIZE > SCREEN_WIDTH then (SCREEN_WIDTH - SIZE - MARGIN, y, v.(x := v.x + 1))
    else if y < 0 then (x, MARGIN, v.(y := v.y - 1))
    else if y + SIZE > SCREEN_HEIGHT then (x, SCREEN_HEIGHT - SIZE - MARGIN, v.(y := v.y + 1))
    else (x, y, v)
  }

  /** The screen tile holding the feet, in tiles of the map's size. */
  function FeetCell(x: int, y: int, tw: pos, th: pos): Cell {
    Cell((x + FEET_X) / tw, (y + FEET_Y) / th)
  }

  /** `get_tile` of a map whose `get_index` adds `extra` to the row-major
      index (1 in the unwalkables demo). */
  function Lookup(m: TileMap, layer: string, x: int, y: int, extra: int): (r: Option<int>)
    ensures extra == 0 ==> r == GetTile(m, layer, x, y)
  {
    if layer !in m.layers then None else PyIndex(m.layers[layer], GetIndex(m.width, x, y) + extra)
  }

  /** Where the key handler and the clamp put Sara and the view, before
      the walkability check. */
  function Moved23(st: Demo23, p: Pad): (int, int, Rect) {
    var m := PriorityStep(st.hero, p);
    ClampShift(m.x, m.y, st.view)
  }

  /** The map cell under the feet after the move. */
  function Target23(st: Demo23, p: Pad, m: TileMap): Cell {
    var mv := Moved23(st, p);
    var f := FeetCell(mv.0, mv.1, m.tileWidth, m.tileHeight);
    Cell(f.x + mv.2.x, f.y + mv.2.y)
  }

  /** Whether the feet moved to another screen tile. */
  predicate Crossed23(st: Demo23, p: Pad, m: TileMap) {
    var mv := Moved23(st, p);
    FeetCell(st.hero.x, st.hero.y, m.tileWidth, m.tileHeight) != FeetCell(mv.0, mv.1, m.tileWidth, m.tileHeight)
  }

  /** `Demo.update` of the unwalkables demo; `None` is the `KeyError` or
      `IndexError` of the walkability lookup. The view is not taken back
      with the position. */
  function Update23(st: Demo23, p: Pad, m: TileMap, due: bool, extra: int): (r: Option<Demo23>)
    ensures r.None? <==> Crossed23(st, p, m) && Lookup(m, "Unwalkable", Target23(st, p, m).x, Target23(st, p, m).y, extra).None?
    ensures r.Some? ==> r.value.view == Moved23(st, p).2
    ensures r.Some? && !Crossed23(st, p, m) ==> (r.value.hero.x, r.value.hero.y) == (Moved23(st, p).0, Moved23(st, p).1)
    ensures r.Some? && Crossed23(st, p, m) ==>
      var t := Lookup(m, "Unwalkable", Target23(st, p, m).x, Target23(st, p, m).y, extra).value;
      (r.value.hero.x, r.value.hero.y) == (if t != 0 then (st.hero.x, st.hero.y) else (Moved23(st, p).0, Moved23(st, p).1))
    ensures r.Some? && ValidFrame(st.hero.sprite) ==> ValidFrame(r.value.hero.sprite)
  {
    var h := st.hero;
    var mv := PriorityStep(h, p);
    var s := if due then NextFrame(mv.sprite) else mv.sprite;
    var c := Moved23(st, p);
    if !Crossed23(st, p, m) then Some(Demo23(Hero(c.0, c.1, s), c.2))
    else
      var target := Target23(st, p, m);
      match Lookup(m, "Unwalkable", target.x, target.y, extra)
      case None => None
      case Some(t) =>
        if t != 0 then Some(Demo23(Hero(h.x, h.y, s), c.2)) else Some(Demo23(Hero(c.0, c.1, s), c.2))
  }

  /** Whatever the map, Sara stays on the screen with a valid frame. */
  lemma Update23KeepsOnScreen(st: Demo23, p: Pad, m: TileMap, due: bool, extra: int)
    requires Good(st.hero)
    requires Update23(st, p, m, due, extra).Some?
    ensures Good(Update23(st, p, m, due, extra).value.hero)
  {
  }

  /** With row-major indexing, a move that takes the feet onto another
      tile of the map is taken back exactly when that tile's `Unwalkable`
      entry is nonzero, and never fails. */
  lemma Update23CheckFixed(st: Demo23, p: Pad, m: TileMap, due: bool)
    requires WellFormed(m) && "Unwalkable" in m.layers
    requires 0 <= Target23(st, p, m).x < m.width && 0 <= Target23(st, p, m).y < m.height
    ensures Update23(st, p, m, due, 0).Some?
    ensures var r := Update23(st, p, m, due, 0).value;
      var t := Target23(st, p, m);
      (r.hero.x, r.hero.y) ==
        (if Crossed23(st, p, m) && m.layers["Unwalkable"][t.x + t.y * m.width] != 0
         then (st.hero.x, st.hero.y) else (Moved23(st, p).0, Moved23(st, p).1))
  {
    var t := Target23(st, p, m);
    GetTileInside(m, "Unwalkable", t.x, t.y);
  }

  /** As written (`get_index` one past row-major), the check for a map
      cell reads the entry of the cell to its right, and the map's last
      cell reads past the end of the layer. */
  lemma LookupAsWritten(m: TileMap, layer: string, x: int, y: int)
    requires WellFormed(m) && layer in m.layers
    requires 0 <= x && 0 <= y < m.height
    ensures x + 1 < m.width ==> Lookup(m, layer, x, y, 1) == GetTile(m, layer, x + 1, y)
    ensures x == m.width - 1 && y == m.height - 1 ==> Lookup(m, layer, x, y, 1).None?
  {
    if x + 1 < m.width {
      GetTileInside(m, layer, x + 1, y);
    }
    if x == m.width - 1 && y == m.height - 1 {
      assert GetIndex(m.width, x, y) + 1 == m.width * m.height;
    }
  }

  /** The smallest case: on a 2 x 1 map whose left cell is unwalkable, the
      as-written check for that cell finds it walkable. */
  lemma UnwalkableNeighbour()
    ensures Lookup(TileMap(2, 1, 32, 32, [], map["Unwalkable" := [1, 0]]), "Unwalkable", 0, 0, 1) == Some(0)
    ensures GetTile(TileMap(2, 1, 32, 32, [], map["Unwalkable" := [1, 0]]), "Unwalkable", 0, 0) == Some(1)
  {
  }
}
