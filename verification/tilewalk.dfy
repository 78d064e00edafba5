/** The tile-movement demo's walker: an entity on a tile with a pixel
    offset, driven by a two-state machine. Waiting polls the keys and
    picks one direction; walking slides the offset one pixel per due tick
    towards the neighbouring tile and, once a whole tile has been covered,
    snaps the entity onto it. */
module TileWalk {
  import opened Wrappers
  import opened Sprite

  /** A unit step, the source's `{'x': .., 'y': ..}` dictionary. */
  datatype Dir = Dir(dx: int, dy: int)

  /** The entity: its tile, its drawing offset in pixels, its sprite. */
  datatype Entity = Entity(x: int, y: int, offsetX: int, offsetY: int, sprite: Sprite)

  /** The machine's current state; a walk remembers its direction and the
      tile it is heading for. */
  datatype State = Waiting | Walking(dir: Dir, targetX: int, targetY: int)

  datatype Machine = Machine(entity: Entity, state: State)

  /** The held keys (WASD or the arrows). */
  datatype Keys = Keys(up: bool, down: bool, left: bool, right: bool)

  /** `Entity.teleport`: onto a tile, offsets cleared. */
  function Teleport(e: Entity, x: int, y: int): (r: Entity)
    ensures r.x == x && r.y == y && r.offsetX == 0 && r.offsetY == 0 && r.sprite == e.sprite
  {
    e.(x := x, y := y, offsetX := 0, offsetY := 0)
  }

  /** `WaitState.update` on a due tick: the first held key in the order
      up, down, left, right. */
  function WaitPick(keys: Keys): (r: Option<Dir>)
    ensures r.None? <==> !keys.up && !keys.down && !keys.left && !keys.right
    ensures r.Some? ==> (r.value.dx == 0) != (r.value.dy == 0)
    ensures r.Some? ==> -1 <= r.value.dx <= 1 && -1 <= r.value.dy <= 1
    ensures keys.up ==> r == Some(Dir(0, -1))
    ensures !keys.up && keys.down ==> r == Some(Dir(0, 1))
    ensures !keys.up && !keys.down && keys.left ==> r == Some(Dir(-1, 0))
    ensures !keys.up && !keys.down && !keys.left && keys.right ==> r == Some(Dir(1, 0))
  {
    if keys.up then Some(Dir(0, -1))
    else if keys.down then Some(Dir(0, 1))
    else if keys.left then Some(Dir(-1, 0))
    else if keys.right then Some(Dir(1, 0))
    else None
  }

  /** One clamp of `WalkState.enter`: below 0 becomes 0, at or past the
      edge falls back to where the entity stands. */
  function Clamp(t: int, current: int, size: int): (r: int)
    ensures t < 0 ==> r == 0
    ensures 0 <= t < size ==> r == t
    ensures t >= 0 && t >= size ==> r == current
  {
    if t < 0 then 0 else if t >= size then current else t
  }

  /** `WalkState.enter`: walk animation, facing by direction, target one
      tile along the direction, clamped to the map. The walk's target is
      taken from where the entity stands when the walk is created. */
  function WalkEnter(e: Entity, d: Dir, mapWidth: int, mapHeight: int): (r: (Entity, State))
    ensures r.0 == e.(sprite := r.0.sprite) && r.0.sprite.animation == Walk
    ensures e.sprite.frame >= 0 ==> ValidFrame(r.0.sprite)
    ensures r.1.Walking? && r.1.dir == d
    // up: face away, aim one tile up
    ensures d.dy == -1 ==>
      r.0.sprite.facing == Away && r.1.targetX == Clamp(e.x, e.x, mapWidth) && r.1.targetY == Clamp(e.y - 1, e.y, mapHeight)
    // down: face the viewer, aim one tile down
    ensures d.dy == 1 ==>
      r.0.sprite.facing == Forward && r.1.targetX == Clamp(e.x, e.x, mapWidth) && r.1.targetY == Clamp(e.y + 1, e.y, mapHeight)
    // left and right, when the direction has no vertical part
    ensures d.dy != -1 && d.dy != 1 && d.dx == -1 ==>
      r.0.sprite.facing == FaceLeft && r.1.targetX == Clamp(e.x - 1, e.x, mapWidth) && r.1.targetY == Clamp(e.y, e.y, mapHeight)
    ensures d.dy != -1 && d.dy != 1 && d.dx == 1 ==>
      r.0.sprite.facing == FaceRight && r.1.targetX == Clamp(e.x + 1, e.x, mapWidth) && r.1.targetY == Clamp(e.y, e.y, mapHeight)
    // no unit component: the facing stays and the target is the entity's own tile
    ensures d.dy != -1 && d.dy != 1 && d.dx != -1 && d.dx != 1 ==>
      r.0.sprite.facing == e.sprite.facing && r.1.targetX == Clamp(e.x, e.x, mapWidth) && r.1.targetY == Clamp(e.y, e.y, mapHeight)
  {
    var s := SetAnimation(e.sprite, Walk);
    var moved :=
      if d.dy == -1 then (SetFacing(s, Away), e.x, e.y - 1)
      else if d.dy == 1 then (SetFacing(s, Forward), e.x, e.y + 1)
      else if d.dx == -1 then (SetFacing(s, FaceLeft), e.x - 1, e.y)
      else if d.dx == 1 then (SetFacing(s, FaceRight), e.x + 1, e.y)
      else (s, e.x, e.y);
    (e.(sprite := moved.0), Walking(d, Clamp(moved.1, e.x, mapWidth), Clamp(moved.2, e.y, mapHeight)))
  }

  predicate OnMap(e: Entity, mapWidth: int, mapHeight: int) {
    0 <= e.x < mapWidth && 0 <= e.y < mapHeight
  }

  /** The target of a walk from a tile on the map is on the map, changes at
      most one coordinate, by at most one. */
  lemma WalkTargetOnMap(e: Entity, d: Dir, mapWidth: int, mapHeight: int)
    requires OnMap(e, mapWidth, mapHeight)
    ensures var st := WalkEnter(e, d, mapWidth, mapHeight).1;
      && 0 <= st.targetX < mapWidth && 0 <= st.targetY < mapHeight
      && (st.targetX == e.x || st.targetY == e.y)
      && -1 <= st.targetX - e.x <= 1 && -1 <= st.targetY - e.y <= 1
  {
  }

  /** Walking into the map's edge targets the tile the entity is on. */
  lemma WalkIntoEdge(e: Entity, mapWidth: int, mapHeight: int)
    requires OnMap(e, mapWidth, mapHeight)
    ensures e.x == 0 ==> WalkEnter(e, Dir(-1, 0), mapWidth, mapHeight).1 == Walking(Dir(-1, 0), e.x, e.y)
    ensures e.x == mapWidth - 1 ==> WalkEnter(e, Dir(1, 0), mapWidth, mapHeight).1 == Walking(Dir(1, 0), e.x, e.y)
    ensures e.y == 0 ==> WalkEnter(e, Dir(0, -1), mapWidth, mapHeight).1 == Walking(Dir(0, -1), e.x, e.y)
    ensures e.y == mapHeight - 1 ==> WalkEnter(e, Dir(0, 1), mapWidth, mapHeight).1 == Walking(Dir(0, 1), e.x, e.y)
  {
  }

  /** `WaitState.enter`: the idle animation, on its only frame; the facing,
      the tile and the offsets stay. */
  function WaitEnter(e: Entity): (r: Entity)
    ensures r.sprite.animation == Idle && r.sprite.facing == e.sprite.facing
    ensures e.sprite.frame >= 0 ==> r.sprite.frame == 0 && ValidFrame(r.sprite)
    ensures e.sprite.frame < 0 ==> r.sprite.frame == e.sprite.frame
    ensures r.x == e.x && r.y == e.y && r.offsetX == e.offsetX && r.offsetY == e.offsetY
  {
    e.(sprite := SetAnimation(e.sprite, Idle))
  }

  function Abs(n: int): nat {
    if n < 0 then -n else n
  }

  /** One `StateMachine.update`. `due` is the state's tick accumulator
      passing 0.1 s. Waiting: on a due tick with a key held, switch to a
      walk. Walking: a walk already at its target ends at once; otherwise a
      due tick moves the offset one pixel and advances the frame, and an
      offset of a whole tile snaps the entity to the target and ends the
      walk. */
  function Tick(mc: Machine, keys: Keys, due: bool, mapWidth: int, mapHeight: int, tw: int, th: int): Machine {
    match mc.state
    case Waiting =>
      var pick := if due then WaitPick(keys) else None;
      if pick.None? then mc
      else
        var entered := WalkEnter(mc.entity, pick.value, mapWidth, mapHeight);
        Machine(entered.0, entered.1)
    case Walking(d, tx, ty) =>
      var e := mc.entity;
      if tx == e.x && ty == e.y then Machine(WaitEnter(e), Waiting)
      else
        var e1 :=
          if !due then e
          else
            var e2 :=
              if d.dy == -1 then e.(offsetY := e.offsetY - 1)
              else if d.dy == 1 then e.(offsetY := e.offsetY + 1)
              else if d.dx == -1 then e.(offsetX := e.offsetX - 1)
              else if d.dx == 1 then e.(offsetX := e.offsetX + 1)
              else e;
            e2.(sprite := NextFrame(e2.sprite));
        if Abs(e1.offsetX) >= tw || Abs(e1.offsetY) >= th then Machine(WaitEnter(Teleport(e1, tx, ty)), Waiting)
        else Machine(e1, Walking(d, tx, ty))
  }

  /** What every reachable machine satisfies: the entity on the map with a
      valid frame; a walk targets a map tile next to (or at) the entity,
      one step along one axis at most. */
  predicate Good(mc: Machine, mapWidth: int, mapHeight: int) {
    && OnMap(mc.entity, mapWidth, mapHeight) && ValidFrame(mc.entity.sprite)
    && (mc.state.Waiting? ==> mc.entity.offsetX == 0 && mc.entity.offsetY == 0)
    && (mc.state.Walking? ==>
          && 0 <= mc.state.targetX < mapWidth && 0 <= mc.state.targetY < mapHeight
          && (mc.state.targetX == mc.entity.x || mc.state.targetY == mc.entity.y)
          && -1 <= mc.state.targetX - mc.entity.x <= 1 && -1 <= mc.state.targetY - mc.entity.y <= 1
          && ((mc.state.targetX, mc.state.targetY) == (mc.entity.x, mc.entity.y) ==>
                mc.entity.offsetX == 0 && mc.entity.offsetY == 0))
  }

  /** Every tick keeps the machine good. */
  lemma TickKeepsGood(mc: Machine, keys: Keys, due: bool, mapWidth: int, mapHeight: int, tw: int, th: int)
    requires Good(mc, mapWidth, mapHeight)
    ensures Good(Tick(mc, keys, due, mapWidth, mapHeight, tw, th), mapWidth, mapHeight)
  {
    if mc.state.Waiting? && due && WaitPick(keys).Some? {
      WalkTargetOnMap(mc.entity, WaitPick(keys).value, mapWidth, mapHeight);
    }
  }

  /** A walk whose target is where the entity stands returns to waiting at
      once, leaving the entity in place with the idle animation. */
  lemma WalkToSelfEnds(e: Entity, d: Dir, keys: Keys, due: bool, mapWidth: int, mapHeight: int, tw: int, th: int)
    ensures Tick(Machine(e, Walking(d, e.x, e.y)), keys, due, mapWidth, mapHeight, tw, th)
      == Machine(e.(sprite := SetAnimation(e.sprite, Idle)), Waiting)
  {
  }

  /** A finished walk leaves the entity exactly on its target with both
      offsets cleared. */
  lemma WalkEndsOnTarget(mc: Machine, keys: Keys, due: bool, mapWidth: int, mapHeight: int, tw: int, th: int)
    requires mc.state.Walking?
    requires Tick(mc, keys, due, mapWidth, mapHeight, tw, th).state.Waiting?
    ensures var e := Tick(mc, keys, due, mapWidth, mapHeight, tw, th).entity;
      && e.x == mc.state.targetX && e.y == mc.state.targetY
      && (if (mc.state.targetX, mc.state.targetY) == (mc.entity.x, mc.entity.y)
          then e.offsetX == mc.entity.offsetX && e.offsetY == mc.entity.offsetY
          else e.offsetX == 0 && e.offsetY == 0)
  {
  }

  /** `n` due ticks with no keys held. */
  function DueTicks(mc: Machine, n: nat, mapWidth: int, mapHeight: int, tw: int, th: int): Machine
    decreases n
  {
    if n == 0 then mc else DueTicks(Tick(mc, Keys(false, false, false, false), true, mapWidth, mapHeight, tw, th), n - 1, mapWidth, mapHeight, tw, th)
  }

  /** Part way through a walk to the right, the offset has grown by one
      pixel per due tick and the frame has advanced as many times. */
  lemma {:induction false} WalkRightPartial(mc: Machine, k: nat, mapWidth: int, mapHeight: int, tw: int, th: int)
    requires mc.state == Walking(Dir(1, 0), mc.entity.x + 1, mc.entity.y)
    requires mc.entity.offsetY == 0 && 0 <= mc.entity.offsetX && mc.entity.offsetX + k < tw && th > 0
    ensures DueTicks(mc, k, mapWidth, mapHeight, tw, th) ==
      Machine(mc.entity.(offsetX := mc.entity.offsetX + k, sprite := NextFrames(mc.entity.sprite, k)), mc.state)
    decreases k
  {
    if k > 0 {
      var e := mc.entity;
      var m1 := Tick(mc, Keys(false, false, false, false), true, mapWidth, mapHeight, tw, th);
      assert m1 == Machine(e.(offsetX := e.offsetX + 1, sprite := NextFrame(e.sprite)), mc.state);
      WalkRightPartial(m1, k - 1, mapWidth, mapHeight, tw, th);
    }
  }

  /** A walk one tile to the right from an aligned entity takes exactly
      `tw` due ticks, then the entity stands on the next tile, aligned,
      waiting, with the idle animation. */
  lemma WalkRightArrives(mc: Machine, mapWidth: int, mapHeight: int, tw: int, th: int)
    requires mc.state == Walking(Dir(1, 0), mc.entity.x + 1, mc.entity.y)
    requires mc.entity.offsetX == 0 && mc.entity.offsetY == 0 && tw > 0 && th > 0
    ensures var r := DueTicks(mc, tw as nat, mapWidth, mapHeight, tw, th);
      && r.state == Waiting && r.entity.x == mc.entity.x + 1 && r.entity.y == mc.entity.y
      && r.entity.offsetX == 0 && r.entity.offsetY == 0 && r.entity.sprite.animation == Idle
  {
    WalkRightPartial(mc, tw - 1, mapWidth, mapHeight, tw, th);
    var mid := DueTicks(mc, tw - 1, mapWidth, mapHeight, tw, th);
    DueTicksSplit(mc, tw - 1, 1, mapWidth, mapHeight, tw, th);
  }

  /** Holding only the right key on a due tick, an aligned waiting entity
      with room to its right starts the walk `WalkRightArrives` finishes:
      after `tw` more due ticks it stands on the next tile, waiting. */
  lemma WaitThenWalkRight(mc: Machine, mapWidth: int, mapHeight: int, tw: int, th: int)
    requires Good(mc, mapWidth, mapHeight) && mc.state.Waiting?
    requires mc.entity.x + 1 < mapWidth && tw > 0 && th > 0
    ensures var m1 := Tick(mc, Keys(false, false, false, true), true, mapWidth, mapHeight, tw, th);
      && m1.state == Walking(Dir(1, 0), mc.entity.x + 1, mc.entity.y)
      && m1.entity.sprite.facing == FaceRight && m1.entity.sprite.animation == Walk
      && var r := DueTicks(m1, tw as nat, mapWidth, mapHeight, tw, th);
      && r.state == Waiting && r.entity.x == mc.entity.x + 1 && r.entity.y == mc.entity.y
      && r.entity.offsetX == 0 && r.entity.offsetY == 0 && r.entity.sprite.animation == Idle
  {
    var m1 := Tick(mc, Keys(false, false, false, true), true, mapWidth, mapHeight, tw, th);
    assert m1.state == Walking(Dir(1, 0), mc.entity.x + 1, mc.entity.y);
    WalkRightArrives(m1, mapWidth, mapHeight, tw, th);
  }

  lemma {:induction false} DueTicksSplit(mc: Machine, a: nat, b: nat, mapWidth: int, mapHeight: int, tw: int, th: int)
    ensures DueTicks(mc, a + b, mapWidth, mapHeight, tw, th) ==
      DueTicks(DueTicks(mc, a, mapWidth, mapHeight, tw, th), b, mapWidth, mapHeight, tw, th)
    decreases a
  {
    if a > 0 {
      DueTicksSplit(Tick(mc, Keys(false, false, false, false), true, mapWidth, mapHeight, tw, th), a - 1, b, mapWidth, mapHeight, tw, th);
    }
  }

  /** The demo's start: the sprite's constructor, placed on (10, 10),
      waiting (whose entry sets the idle animation). */
  function DemoStart(): (mc: Machine)
    ensures mc.state == Waiting && mc.entity.x == 10 && mc.entity.y == 10
    ensures mc.entity.sprite == Sprite(Idle, Forward, 0)
  {
    var e := Entity(0, 0, 0, 0, NewSprite());
    Machine(Teleport(WaitEnter(e), 10, 10), Waiting)
  }
}
