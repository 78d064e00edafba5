/** The map trigger demo: per-tile triggers keyed by (x, y), ordered lists
    of map-level enter and exit callbacks, and the walking update that
    fires a tile's exit trigger and the next tile's enter trigger. A
    callback is an opaque identifier; calling it appends an `Event` to a
    log. */
module Triggers {
  import opened Wrappers
  import opened Grid
  import opened Tiled
  import opened Camera

  /** A callback, identified by which function object it is. */
  type Callback = nat

  /** One call `f(x, y, actor)`. */
  datatype Event = Event(callback: Callback, x: int, y: int, actor: string)

  /** `Trigger(on_enter, on_exit)`; `None` stands for a `None` argument, the
      only falsy value a caller passes. */
  datatype Trigger = Trigger(enter: Option<Callback>, exit: Option<Callback>)

  /** The trigger part of `Map`. */
  datatype Triggers = Triggers(onEnter: seq<Callback>, onExit: seq<Callback>, table: map<Cell, Trigger>)

  function Fire(f: Option<Callback>, x: int, y: int, actor: string, log: seq<Event>): (r: seq<Event>)
    ensures f.None? ==> r == log
    ensures f.Some? ==> r == log + [Event(f.value, x, y, actor)]
  {
    if f.Some? then log + [Event(f.value, x, y, actor)] else log
  }

  /** `Trigger.on_enter`: calls the enter function if there is one. */
  function TriggerEnter(tr: Trigger, x: int, y: int, actor: string, log: seq<Event>): (r: seq<Event>)
    ensures tr.enter.None? ==> r == log
    ensures tr.enter.Some? ==> r == log + [Event(tr.enter.value, x, y, actor)]
  {
    Fire(tr.enter, x, y, actor, log)
  }

  /** `Trigger.on_exit`: calls the exit function if there is one. */
  function TriggerExit(tr: Trigger, x: int, y: int, actor: string, log: seq<Event>): (r: seq<Event>)
    ensures tr.exit.None? ==> r == log
    ensures tr.exit.Some? ==> r == log + [Event(tr.exit.value, x, y, actor)]
  {
    Fire(tr.exit, x, y, actor, log)
  }

  /** A fresh map: nothing registered. */
  function NoTriggers(): (t: Triggers)
    ensures t.onEnter == [] && t.onExit == [] && t.table == map[]
  {
    Triggers([], [], map[])
  }

  /** `add_onenter`: registered after every earlier one. */
  function AddOnEnter(t: Triggers, f: Callback): (r: Triggers)
    ensures r.onEnter == t.onEnter + [f] && r.onExit == t.onExit && r.table == t.table
  {
    t.(onEnter := t.onEnter + [f])
  }

  /** `add_onexit`. */
  function AddOnExit(t: Triggers, f: Callback): (r: Triggers)
    ensures r.onExit == t.onExit + [f] && r.onEnter == t.onEnter && r.table == t.table
  {
    t.(onExit := t.onExit + [f])
  }

  /** `add_trigger`: the trigger at (x, y) is replaced; other tiles and the
      map-level lists are untouched. */
  function AddTrigger(t: Triggers, x: int, y: int, enter: Option<Callback>, exit: Option<Callback>): (r: Triggers)
    ensures r.table.Keys == t.table.Keys + {Cell(x, y)}
    ensures r.table[Cell(x, y)] == Trigger(enter, exit)
    ensures forall c :: c in t.table && c != Cell(x, y) ==> r.table[c] == t.table[c]
    ensures r.onEnter == t.onEnter && r.onExit == t.onExit
  {
    t.(table := t.table[Cell(x, y) := Trigger(enter, exit)])
  }

  /** A second `add_trigger` at the same tile overwrites the first. */
  lemma AddTriggerLastWins(t: Triggers, x: int, y: int, e1: Option<Callback>, x1: Option<Callback>,
                           e2: Option<Callback>, x2: Option<Callback>)
    ensures AddTrigger(AddTrigger(t, x, y, e1, x1), x, y, e2, x2) == AddTrigger(t, x, y, e2, x2)
  {
  }

  /** Triggers at different tiles do not interfere: the order of adding
      them does not matter. */
  lemma AddTriggerCommutes(t: Triggers, x: int, y: int, e1: Option<Callback>, x1: Option<Callback>,
                           u: int, v: int, e2: Option<Callback>, x2: Option<Callback>)
    requires Cell(x, y) != Cell(u, v)
    ensures AddTrigger(AddTrigger(t, x, y, e1, x1), u, v, e2, x2) == AddTrigger(AddTrigger(t, u, v, e2, x2), x, y, e1, x1)
  {
  }

  /** Calls every function of `fs` with (x, y, actor), in order. */
  function CallAll(fs: seq<Callback>, x: int, y: int, actor: string, log: seq<Event>): (r: seq<Event>)
    ensures |r| == |log| + |fs|
    ensures r[..|log|] == log
    ensures forall i :: 0 <= i < |fs| ==> r[|log| + i] == Event(fs[i], x, y, actor)
  {
    if |fs| == 0 then log else CallAll(fs[1..], x, y, actor, log + [Event(fs[0], x, y, actor)])
  }

  /** `enter_map`. */
  function EnterMap(t: Triggers, x: int, y: int, actor: string, log: seq<Event>): seq<Event> {
    CallAll(t.onEnter, x, y, actor, log)
  }

  /** `exit_map`. */
  function ExitMap(t: Triggers, x: int, y: int, actor: string, log: seq<Event>): seq<Event> {
    CallAll(t.onExit, x, y, actor, log)
  }

  /** Registering one more map-level function adds exactly its call, after
      all the earlier ones. */
  lemma {:induction false} CallAllAppend(fs: seq<Callback>, f: Callback, x: int, y: int, actor: string, log: seq<Event>)
    ensures CallAll(fs + [f], x, y, actor, log) == CallAll(fs, x, y, actor, log) + [Event(f, x, y, actor)]
  {
    if |fs| > 0 {
      assert (fs + [f])[1..] == fs[1..] + [f];
      CallAllAppend(fs[1..], f, x, y, actor, log + [Event(fs[0], x, y, actor)]);
    }
  }

  lemma EnterMapAfterAdd(t: Triggers, f: Callback, x: int, y: int, actor: string, log: seq<Event>)
    ensures EnterMap(AddOnEnter(t, f), x, y, actor, log) == EnterMap(t, x, y, actor, log) + [Event(f, x, y, actor)]
    ensures ExitMap(AddOnExit(t, f), x, y, actor, log) == ExitMap(t, x, y, actor, log) + [Event(f, x, y, actor)]
  {
    CallAllAppend(t.onEnter, f, x, y, actor, log);
    CallAllAppend(t.onExit, f, x, y, actor, log);
  }

  /** `enter_tile`: the tile's enter trigger, if the tile has a trigger. */
  function EnterTile(t: Triggers, x: int, y: int, actor: string, log: seq<Event>): (r: seq<Event>)
    ensures Cell(x, y) !in t.table ==> r == log
    ensures Cell(x, y) in t.table ==> r == TriggerEnter(t.table[Cell(x, y)], x, y, actor, log)
  {
    if Cell(x, y) in t.table then TriggerEnter(t.table[Cell(x, y)], x, y, actor, log) else log
  }

  /** `exit_tile`. */
  function ExitTile(t: Triggers, x: int, y: int, actor: string, log: seq<Event>): (r: seq<Event>)
    ensures Cell(x, y) !in t.table ==> r == log
    ensures Cell(x, y) in t.table ==> r == TriggerExit(t.table[Cell(x, y)], x, y, actor, log)
  {
    if Cell(x, y) in t.table then TriggerExit(t.table[Cell(x, y)], x, y, actor, log) else log
  }

  /** `e` is a call of the trigger stored at its own tile. */
  predicate FromTable(t: Triggers, e: Event) {
    Cell(e.x, e.y) in t.table &&
    (t.table[Cell(e.x, e.y)].enter == Some(e.callback) || t.table[Cell(e.x, e.y)].exit == Some(e.callback))
  }

  /** `log2` is `log1` followed by trigger calls only. */
  predicate Extends(t: Triggers, log1: seq<Event>, log2: seq<Event>) {
    |log1| <= |log2| && log2[..|log1|] == log1 &&
    forall i :: |log1| <= i < |log2| ==> FromTable(t, log2[i])
  }

  lemma ExtendsTrans(t: Triggers, a: seq<Event>, b: seq<Event>, c: seq<Event>)
    requires Extends(t, a, b) && Extends(t, b, c)
    ensures Extends(t, a, c)
  {
    assert c[..|a|] == c[..|b|][..|a|];
  }

  /** Entering or leaving a tile adds at most one call, and only of that
      tile's own trigger. */
  lemma TileEventsFromTable(t: Triggers, x: int, y: int, actor: string, log: seq<Event>)
    ensures Extends(t, log, EnterTile(t, x, y, actor, log)) && |EnterTile(t, x, y, actor, log)| <= |log| + 1
    ensures Extends(t, log, ExitTile(t, x, y, actor, log)) && |ExitTile(t, x, y, actor, log)| <= |log| + 1
  {
  }

  // ------------------------------------------------------ the demo

  const ACTOR := "Player Avatar"

  /** One direction of `Demo.update`: if the key is held and the
      destination passes the bounds test, look it up in the `Unwalkable`
      layer; on 0, fire the old tile's exit trigger, move, fire the new
      tile's enter trigger. `None` is the exception `get_tile` raises. */
  function Step(m: TileMap, t: Triggers, cam: Camera, log: seq<Event>, held: bool, inBounds: bool, dest: Cell)
    : (r: Option<(Camera, seq<Event>)>)
    ensures !held || !inBounds ==> r == Some((cam, log))
    ensures held && inBounds ==> (r.None? <==> GetTile(m, "Unwalkable", dest.x, dest.y).None?)
    ensures held && inBounds && GetTile(m, "Unwalkable", dest.x, dest.y) == Some(0) ==>
      r == Some((SetPosition(cam, dest.x, dest.y), EnterTile(t, dest.x, dest.y, ACTOR, ExitTile(t, cam.x, cam.y, ACTOR, log))))
    ensures r.Some? && GetTile(m, "Unwalkable", dest.x, dest.y) != Some(0) ==> r == Some((cam, log))
  {
    if !held || !inBounds then Some((cam, log))
    else
      match GetTile(m, "Unwalkable", dest.x, dest.y)
      case None => None
      case Some(tile) =>
        if tile == 0 then
          Some((SetPosition(cam, dest.x, dest.y), EnterTile(t, dest.x, dest.y, ACTOR, ExitTile(t, cam.x, cam.y, ACTOR, log))))
        else Some((cam, log))
  }

  /** Direction `dir` of `update` (0 up, 1 down, 2 left, 3 right): whether
      its key is held, its bounds test, and the tile it moves to. */
  function Held(keys: Keys, dir: nat): bool {
    if dir == 0 then keys.up else if dir == 1 then keys.down else if dir == 2 then keys.left else keys.right
  }

  function InBounds(m: TileMap, cam: Camera, dir: nat): bool {
    if dir == 0 then cam.y - 1 >= 0
    else if dir == 1 then cam.y + 1 < m.height
    else if dir == 2 then cam.x - 1 >= 0
    else cam.x + 1 < m.width
  }

  function Dest(cam: Camera, dir: nat): (c: Cell)
    ensures c.x == cam.x || c.y == cam.y
  {
    if dir == 0 then Cell(cam.x, cam.y - 1)
    else if dir == 1 then Cell(cam.x, cam.y + 1)
    else if dir == 2 then Cell(cam.x - 1, cam.y)
    else Cell(cam.x + 1, cam.y)
  }

  /** Directions `dir` through 3 of `update`, each tested on the position
      the previous one left. */
  function UpdateFrom(m: TileMap, t: Triggers, cam: Camera, log: seq<Event>, keys: Keys, dir: nat)
    : Option<(Camera, seq<Event>)>
    decreases 4 - dir
  {
    if dir >= 4 then Some((cam, log))
    else
      match Step(m, t, cam, log, Held(keys, dir), InBounds(m, cam, dir), Dest(cam, dir))
      case None => None
      case Some(s) => UpdateFrom(m, t, s.0, s.1, keys, dir + 1)
  }

  /** `Demo.update` on a due tick: up, down, left, right. */
  function Update(m: TileMap, t: Triggers, cam: Camera, log: seq<Event>, keys: Keys): Option<(Camera, seq<Event>)> {
    UpdateFrom(m, t, cam, log, keys, 0)
  }

  predicate CameraOnMap(m: TileMap, cam: Camera) {
    0 <= cam.x < m.width && 0 <= cam.y < m.height
  }

  /** A step within the map from a tile on the map never raises, stays on
      the map, moves at most one tile, and logs only trigger calls. */
  lemma StepOnMap(m: TileMap, t: Triggers, cam: Camera, log: seq<Event>, held: bool, inBounds: bool, dest: Cell)
    requires WellFormed(m) && "Unwalkable" in m.layers && CameraOnMap(m, cam)
    requires inBounds ==> OnMap(m, dest)
    ensures var r := Step(m, t, cam, log, held, inBounds, dest);
      && r.Some? && CameraOnMap(m, r.value.0) && Extends(t, log, r.value.1)
      && (r.value.0 == cam || (r.value.0.x == dest.x && r.value.0.y == dest.y))
  {
    if held && inBounds {
      GetTileInside(m, "Unwalkable", dest.x, dest.y);
      var l1 := ExitTile(t, cam.x, cam.y, ACTOR, log);
      TileEventsFromTable(t, cam.x, cam.y, ACTOR, log);
      TileEventsFromTable(t, dest.x, dest.y, ACTOR, l1);
      ExtendsTrans(t, log, l1, EnterTile(t, dest.x, dest.y, ACTOR, l1));
    }
  }

  lemma ExtendsRefl(t: Triggers, log: seq<Event>)
    ensures Extends(t, log, log)
  {
  }

  lemma {:induction false} UpdateFromOnMap(m: TileMap, t: Triggers, cam: Camera, log: seq<Event>, keys: Keys, dir: nat)
    requires WellFormed(m) && "Unwalkable" in m.layers && CameraOnMap(m, cam)
    ensures var r := UpdateFrom(m, t, cam, log, keys, dir);
      r.Some? && CameraOnMap(m, r.value.0) && Extends(t, log, r.value.1)
    decreases 4 - dir
  {
    if dir >= 4 {
      ExtendsRefl(t, log);
    } else {
      StepOnMap(m, t, cam, log, Held(keys, dir), InBounds(m, cam, dir), Dest(cam, dir));
      var s := Step(m, t, cam, log, Held(keys, dir), InBounds(m, cam, dir), Dest(cam, dir)).value;
      UpdateFromOnMap(m, t, s.0, s.1, keys, dir + 1);
      ExtendsTrans(t, log, s.1, UpdateFrom(m, t, s.0, s.1, keys, dir + 1).value.1);
    }
  }

  /** From a tile on a well-formed map, `update` never raises, keeps the
      camera on the map, and only ever appends calls of tile triggers
      (never a map-level function). */
  lemma UpdateOnMap(m: TileMap, t: Triggers, cam: Camera, log: seq<Event>, keys: Keys)
    requires WellFormed(m) && "Unwalkable" in m.layers && CameraOnMap(m, cam)
    ensures var r := Update(m, t, cam, log, keys);
      r.Some? && CameraOnMap(m, r.value.0) && Extends(t, log, r.value.1)
  {
    UpdateFromOnMap(m, t, cam, log, keys, 0);
  }

  /** With no key held, `update` changes nothing. */
  lemma UpdateIdle(m: TileMap, t: Triggers, cam: Camera, log: seq<Event>)
    ensures Update(m, t, cam, log, Keys(false, false, false, false)) == Some((cam, log))
  {
  }

  /** Adds the same trigger to every tile of `cells`, in order. */
  function AddTriggers(t: Triggers, cells: seq<Cell>, enter: Option<Callback>, exit: Option<Callback>): (r: Triggers)
    ensures forall c :: c in cells ==> c in r.table && r.table[c] == Trigger(enter, exit)
    ensures forall c :: c in t.table && c !in cells ==> c in r.table && r.table[c] == t.table[c]
    ensures r.onEnter == t.onEnter && r.onExit == t.onExit
    decreases |cells|
  {
    if |cells| == 0 then t
    else AddTriggers(AddTrigger(t, cells[0].x, cells[0].y, enter, exit), cells[1..], enter, exit)
  }

  /** The tilled garden patch, (22, 12) to (27, 14). */
  function Garden(): (cs: seq<Cell>)
    ensures forall c :: c in cs <==> 22 <= c.x < 28 && 12 <= c.y < 15
  {
    RowMajor(22, 28, 12, 15)
  }

  /** The triggers around the start tile, before the garden's. */
  function CentreTriggers(): (t: Triggers)
    ensures t.onEnter == [0, 1] && t.onExit == []
    ensures t.table == map[Cell(24, 24) := Trigger(None, Some(2)), Cell(23, 24) := Trigger(Some(3), None),
                           Cell(25, 24) := Trigger(Some(4), None), Cell(24, 23) := Trigger(Some(5), None),
                           Cell(24, 25) := Trigger(Some(6), None)]
  {
    var t := AddOnEnter(AddOnEnter(NoTriggers(), 0), 1);
    var t := AddTrigger(t, 24, 24, None, Some(2));
    var t := AddTrigger(t, 23, 24, Some(3), None);
    var t := AddTrigger(t, 25, 24, Some(4), None);
    var t := AddTrigger(t, 24, 23, Some(5), None);
    AddTrigger(t, 24, 25, Some(6), None)
  }

  /** The demo's setup, callbacks numbered in the order they are created:
      0 and 1 the two map-enter functions, 2 the exit trigger on (24, 24),
      3 to 6 the enter triggers around it, 7 the garden's. */
  function DemoTriggers(): Triggers {
    AddTriggers(CentreTriggers(), Garden(), Some(7), None)
  }

  /** The demo's table: an exit-only trigger at the centre tile, enter-only
      triggers beside it, the garden patch covered, and the map-enter
      functions called in registration order at start-up. */
  lemma DemoSetup(x: int, y: int)
    ensures var t := DemoTriggers();
      && t.table[Cell(24, 24)] == Trigger(None, Some(2))
      && t.table[Cell(23, 24)] == Trigger(Some(3), None)
      && t.table[Cell(24, 25)] == Trigger(Some(6), None)
      && (forall c: Cell :: 22 <= c.x < 28 && 12 <= c.y < 15 ==> t.table[c] == Trigger(Some(7), None))
      && EnterMap(t, x, y, ACTOR, []) == [Event(0, x, y, ACTOR), Event(1, x, y, ACTOR)]
      && t.onExit == []
  {
    var t0 := CentreTriggers();
    var g := Garden();
    assert Cell(24, 24) !in g && Cell(23, 24) !in g && Cell(24, 25) !in g;
    assert Cell(24, 24) in t0.table && Cell(23, 24) in t0.table && Cell(24, 25) in t0.table;
    CallAllPair(0, 1, x, y, ACTOR);
  }

  lemma CallAllPair(f: Callback, g: Callback, x: int, y: int, actor: string)
    ensures CallAll([f, g], x, y, actor, []) == [Event(f, x, y, actor), Event(g, x, y, actor)]
  {
    assert [f, g][1..] == [g] && [g][1..] == [];
    assert [] + [Event(f, x, y, actor)] + [Event(g, x, y, actor)] == [Event(f, x, y, actor), Event(g, x, y, actor)];
  }
}
