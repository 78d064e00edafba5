/** The Liberated Pixel Cup character sprite shared by the sprite demos:
    an animation, a facing and a frame counter that wraps (or is clamped
    to 0) against a fixed table of frame counts, and the 64 x 64 cells of
    the sprite sheet each frame is cut from. */
module Sprite {
  import opened Wrappers
  import opened Arith
  import opened Grid

  datatype Animation = Spellcast | Thrust | Walk | Slash | Shoot | Hurt | Idle

  datatype Facing = Away | FaceLeft | Forward | FaceRight

  /** `FRAMES`: frames per animation; `idle` is a single borrowed frame. */
  function Frames(a: Animation): (n: nat)
    ensures n >= 1
  {
    match a
    case Spellcast => 7
    case Thrust => 8
    case Walk => 9
    case Slash => 6
    case Shoot => 13
    case Hurt => 6
    case Idle => 1
  }

  datatype Sprite = Sprite(animation: Animation, facing: Facing, frame: int)

  /** The frame counter indexes the current animation's frame list. */
  predicate ValidFrame(s: Sprite) {
    0 <= s.frame < Frames(s.animation)
  }

  /** The constructor: walking, facing forward, on frame 1. */
  function NewSprite(): (s: Sprite)
    ensures s.animation == Walk && s.facing == Forward && s.frame == 1 && ValidFrame(s)
  {
    Sprite(Walk, Forward, 1)
  }

  /** `check_frame`: a frame past the end of the animation goes back to
      0. */
  function CheckFrame(s: Sprite): (r: Sprite)
    ensures r.animation == s.animation && r.facing == s.facing
    ensures s.frame < Frames(s.animation) ==> r == s
    ensures s.frame >= Frames(s.animation) ==> r.frame == 0
    ensures s.frame >= 0 ==> ValidFrame(r)
  {
    if s.frame >= Frames(s.animation) then s.(frame := 0) else s
  }

  /** `next_frame`. */
  function NextFrame(s: Sprite): (r: Sprite)
    ensures r.animation == s.animation && r.facing == s.facing
    ensures s.frame >= -1 ==> ValidFrame(r)
    ensures ValidFrame(s) ==> r.frame == (s.frame + 1) % Frames(s.animation)
  {
    CheckFrame(s.(frame := s.frame + 1))
  }

  /** `set_facing`: the frame is kept when the animation still has it. */
  function SetFacing(s: Sprite, f: Facing): (r: Sprite)
    ensures r.facing == f && r.animation == s.animation
    ensures s.frame >= 0 ==> ValidFrame(r)
    ensures ValidFrame(s) ==> r.frame == s.frame
  {
    CheckFrame(s.(facing := f))
  }

  /** `set_animation`: the frame is kept if the new animation has it,
      otherwise it goes back to 0. */
  function SetAnimation(s: Sprite, a: Animation): (r: Sprite)
    ensures r.animation == a && r.facing == s.facing
    ensures s.frame >= 0 ==> ValidFrame(r)
    ensures s.frame < Frames(a) ==> r.frame == s.frame
  {
    CheckFrame(s.(animation := a))
  }

  /** Switching to `idle` always lands on its only frame. */
  lemma IdleIsFrameZero(s: Sprite)
    requires s.frame >= 0
    ensures SetAnimation(s, Idle).frame == 0
  {
  }

  /** `n` calls of `next_frame`. */
  function NextFrames(s: Sprite, n: nat): Sprite
    decreases n
  {
    if n == 0 then s else NextFrames(NextFrame(s), n - 1)
  }

  /** After `n` frames the counter has advanced by `n` modulo the length
      of the animation. */
  lemma {:induction false} NextFramesAt(s: Sprite, n: nat)
    requires ValidFrame(s)
    ensures NextFrames(s, n) == s.(frame := (s.frame + n) % Frames(s.animation))
    decreases n
  {
    if n > 0 {
      var s1 := NextFrame(s);
      NextFramesAt(s1, n - 1);
      ModAddOne(s.frame, n - 1, Frames(s.animation));
    }
  }

  lemma ModAddOne(f: int, k: nat, d: nat)
    requires 0 <= f < d
    ensures ((f + 1) % d + k) % d == (f + k + 1) % d
  {
    if f + 1 == d {
      DivModUnique(f + 1, d, 1, 0);
      DivModStep(k + d, d);
      assert f + k + 1 == k + d;
    } else {
      DivModUnique(f + 1, d, 0, f + 1);
    }
  }

  /** An animation's worth of frames brings the counter back where it
      started. */
  lemma NextFramesCycle(s: Sprite)
    requires ValidFrame(s)
    ensures NextFrames(s, Frames(s.animation)) == s
  {
    NextFramesWhole(s, Frames(s.animation));
  }

  lemma NextFramesWhole(s: Sprite, d: nat)
    requires ValidFrame(s) && d == Frames(s.animation)
    ensures NextFrames(s, d) == s
  {
    NextFramesAt(s, d);
    ModCycle(s.frame, d);
  }

  lemma ModCycle(f: int, d: int)
    requires 0 <= f < d
    ensures (f + d) % d == f
  {
    DivModUnique(f + d, d, 1, f);
  }

  // ------------------------------------------------------ the sheet

  const SIZE := 64

  function AnimationRow(a: Animation): nat {
    match a
    case Spellcast => 0
    case Thrust => 1
    case Walk => 2
    case Slash => 3
    case Shoot => 4
    case Hurt => 5
    case Idle => 6
  }

  function FacingRow(f: Facing): nat {
    match f
    case Away => 0
    case FaceLeft => 1
    case Forward => 2
    case FaceRight => 3
  }

  /** The sheet rectangle of frame `i` of `a` facing `f`: the first five
      animations have one row per facing in `LPC_FACING` order; `hurt` is
      the sheet's bottom row for every facing; `idle` borrows the first
      `walk` frame. `frames[a][f][i]` is a Python list index, so a negative
      `i` counts from the end, and `None` is where it raises. */
  function FrameRect(a: Animation, f: Facing, i: int, sheetHeight: int): (r: Option<Rect>)
    ensures r.Some? <==> -(Frames(a) as int) <= i < Frames(a)
    ensures -(Frames(a) as int) <= i < 0 ==> r == FrameRect(a, f, i + Frames(a), sheetHeight)
    ensures 0 <= i < Frames(a) && a != Idle ==> r.value.x == i * SIZE && r.value.width == SIZE && r.value.height == SIZE
    decreases if a == Idle then 1 else 0, if i < 0 then 1 else 0
  {
    if !(-(Frames(a) as int) <= i < Frames(a)) then None
    else if i < 0 then FrameRect(a, f, i + Frames(a), sheetHeight)
    else if a == Idle then FrameRect(Walk, f, 0, sheetHeight)
    else if a == Hurt then Some(Rect(i * SIZE, sheetHeight - SIZE, SIZE, SIZE))
    else Some(Rect(i * SIZE, (AnimationRow(a) * 4 + FacingRow(f)) * SIZE, SIZE, SIZE))
  }

  /** `get_texture`. */
  function GetTexture(s: Sprite, sheetHeight: int): Option<Rect> {
    FrameRect(s.animation, s.facing, s.frame, sheetHeight)
  }

  /** The cut-out table has a frame for every valid counter, and for the
      negative counters Python reads from the end of the list, but for no
      other. */
  lemma GetTextureValid(s: Sprite, sheetHeight: int)
    ensures ValidFrame(s) ==> GetTexture(s, sheetHeight).Some?
    ensures GetTexture(s, sheetHeight).Some? <==> ValidFrame(s) || -(Frames(s.animation) as int) <= s.frame < 0
    ensures s.frame < 0 && GetTexture(s, sheetHeight).Some? ==>
      GetTexture(s, sheetHeight) == GetTexture(s.(frame := s.frame + Frames(s.animation)), sheetHeight)
  {
  }

  /** A counter as a list position: negative counters count from the end. */
  function Position(i: int, n: int): int {
    if i < 0 then i + n else i
  }

  /** Distinct (animation, facing, list position) triples of the first
      five animations come from distinct cells of the sheet. */
  lemma FrameRectsDistinct(a: Animation, f: Facing, i: int, b: Animation, g: Facing, j: int, h: int)
    requires a !in {Hurt, Idle} && b !in {Hurt, Idle}
    requires FrameRect(a, f, i, h).Some? && FrameRect(b, g, j, h).Some?
    requires (a, f, Position(i, Frames(a))) != (b, g, Position(j, Frames(b)))
    ensures FrameRect(a, f, i, h) != FrameRect(b, g, j, h)
  {
    var p, q := Position(i, Frames(a)), Position(j, Frames(b));
    assert FrameRect(a, f, i, h) == FrameRect(a, f, p, h);
    assert FrameRect(b, g, j, h) == FrameRect(b, g, q, h);
  }

  /** `hurt` looks the same whichever way the sprite faces, and `idle` is
      the first `walk` frame. */
  lemma SharedFrames(f: Facing, g: Facing, i: int, h: int)
    ensures FrameRect(Hurt, f, i, h) == FrameRect(Hurt, g, i, h)
    ensures FrameRect(Idle, f, 0, h) == FrameRect(Walk, f, 0, h)
  {
  }
}
