/** Player.Update: one frame of keyboard movement, facing, sprite rotation
    and shooting. Positions and Time.deltaTime are floats in the source; here
    they are reals, and the frame's step length `speed` (deltaTime * 4) is a
    parameter. */
module Player {
  import opened Optional
  import opened Tiles
  import opened Heading

  /** The keys held this frame (each of the four is the arrow key or its
      WASD letter) and whether space went down this frame. */
  datatype Keys = Keys(left: bool, right: bool, up: bool, down: bool, space: bool)

  /** What one frame does: the position change, the facing kept for the
      next frame, the rotation given to the child sprites (None when they
      are not touched) and the rotation of a bullet fired this frame. */
  datatype Frame = Frame(dx: real, dy: real, facing: Direction, spriteRotation: Option<int>, bullet: Option<int>)

  /** Awake: the player starts out facing up. */
  const InitialFacing: Direction := Up

  /** The horizontal and vertical sense of the pressed keys: Left wins over
      Right and Up wins over Down, as in the source's if/else-if pairs. */
  function Horizontal(k: Keys): int
  {
    if k.left then -1 else if k.right then 1 else 0
  }

  function Vertical(k: Keys): int
  {
    if k.up then 1 else if k.down then -1 else 0
  }

  /** The facing after the two movement blocks and the diagonal block. */
  function NextFacing(facing: Direction, k: Keys): Direction
  {
    var afterMoves :=
      if k.up then Up
      else if k.down then Down
      else if k.left then Left
      else if k.right then Right
      else facing;
    if k.up && k.left then TopLeft
    else if k.up && k.right then TopRight
    else if k.down && k.left then BottomLeft
    else if k.down && k.right then BottomRight
    else afterMoves
  }

  /** One call of Update with the map gate `initialized`. */
  function PlayerUpdate(initialized: bool, facing: Direction, k: Keys, speed: real): (r: Frame)
    ensures !initialized ==> r == Frame(0.0, 0.0, facing, None, None)
    ensures initialized ==>
              && r.dx == Horizontal(k) as real * speed
              && r.dy == Vertical(k) as real * speed
              && r.spriteRotation == Some(Rotation(r.facing))
              && r.bullet == (if k.space then Some(Rotation(r.facing)) else None)
    ensures initialized ==> r.facing == NextFacing(facing, k)
  {
    if !initialized then Frame(0.0, 0.0, facing, None, None)
    else
      var dx := if k.left then -speed else if k.right then speed else 0.0;
      var dy := if k.up then speed else if k.down then -speed else 0.0;
      var f := NextFacing(facing, k);
      var rot := Rotation(f);
      Frame(dx, dy, f, Some(rot), if k.space then Some(rot) else None)
  }

  /** The player faces where it walks: whenever some movement key is held,
      the new facing's compass vector is the sense of the pressed keys, and
      with no movement key the facing is kept. */
  lemma FacingFollowsMovement(facing: Direction, k: Keys)
    ensures (Horizontal(k), Vertical(k)) != (0, 0) ==> Unit(NextFacing(facing, k)) == (Horizontal(k), Vertical(k))
    ensures (Horizontal(k), Vertical(k)) == (0, 0) ==> NextFacing(facing, k) == facing
  {
  }

  /** With a positive step, the frame's displacement points along the new
      facing, and its sprites and bullet are turned to face that way too. */
  lemma {:induction false} MovesAlongFacing(facing: Direction, k: Keys, speed: real)
    requires speed > 0.0
    requires var r := PlayerUpdate(true, facing, k, speed); r.dx != 0.0 || r.dy != 0.0
    ensures var r := PlayerUpdate(true, facing, k, speed);
            && (r.dx > 0.0 <==> Unit(r.facing).0 == 1) && (r.dx < 0.0 <==> Unit(r.facing).0 == -1)
            && (r.dy > 0.0 <==> Unit(r.facing).1 == 1) && (r.dy < 0.0 <==> Unit(r.facing).1 == -1)
            && Facing(r.spriteRotation.value) == Unit(r.facing)
  {
    var r := PlayerUpdate(true, facing, k, speed);
    FacingFollowsMovement(facing, k);
    RotationFacesDirection(r.facing);
  }

  /** Each axis moves by exactly one step or not at all, and Left (Up)
      decides when both keys of an axis are held. */
  lemma OneStepPerAxis(facing: Direction, k: Keys, speed: real)
    ensures var r := PlayerUpdate(true, facing, k, speed);
            && (r.dx == -speed || r.dx == 0.0 || r.dx == speed)
            && (r.dy == -speed || r.dy == 0.0 || r.dy == speed)
            && (k.left && k.right ==> r.dx == -speed)
            && (k.up && k.down ==> r.dy == speed)
  {
  }

  /** Until the seed tile is on screen the player does not move, turn or
      shoot, whatever is pressed. */
  lemma FrozenUntilInitialized(facing: Direction, k: Keys, speed: real)
    ensures PlayerUpdate(false, facing, k, speed).facing == facing
    ensures PlayerUpdate(false, facing, k, speed).bullet.None?
    ensures PlayerUpdate(false, facing, k, speed).dx == 0.0 && PlayerUpdate(false, facing, k, speed).dy == 0.0
  {
  }

  /** A bullet leaves heading the way the player faces. */
  lemma BulletFollowsFacing(facing: Direction, k: Keys, speed: real)
    requires k.space
    ensures var r := PlayerUpdate(true, facing, k, speed);
            r.bullet.Some? && Facing(r.bullet.value) == Unit(r.facing)
  {
    RotationFacesDirection(PlayerUpdate(true, facing, k, speed).facing);
  }
}
