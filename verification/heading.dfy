/** Sprite headings. Unity's z rotation turns a sprite counter-clockwise by
    the given number of degrees, starting from a sprite that faces up. The
    player, its bullets and the enemies all turn in steps of 45 degrees. */
module Heading {
  import opened Tiles

  /** The rotateDegree the player's switch assigns to a facing direction. */
  function Rotation(d: Direction): int
  {
    match d
    case Up => 0
    case Down => 180
    case Left => 90
    case Right => 270
    case TopLeft => 45
    case TopRight => -45
    case BottomLeft => 135
    case BottomRight => -135
  }

  /** A quarter of a right angle counter-clockwise, on the eight compass
      vectors: up, up-left, left, down-left, down, down-right, right,
      up-right, and back to up. Anything else is left alone. */
  function TurnCcw(v: (int, int)): (int, int)
  {
    if v == (0, 1) then (-1, 1)
    else if v == (-1, 1) then (-1, 0)
    else if v == (-1, 0) then (-1, -1)
    else if v == (-1, -1) then (0, -1)
    else if v == (0, -1) then (1, -1)
    else if v == (1, -1) then (1, 0)
    else if v == (1, 0) then (1, 1)
    else if v == (1, 1) then (0, 1)
    else v
  }

  /** k steps of 45 degrees counter-clockwise. */
  function Turns(v: (int, int), k: nat): (int, int)
  {
    if k == 0 then v else TurnCcw(Turns(v, k - 1))
  }

  /** Where a sprite that faces up points after a z rotation of `degrees`
      (a multiple of 45). */
  function Facing(degrees: int): (int, int)
  {
    Turns((0, 1), (degrees / 45) % 8)
  }

  /** Rotating by Rotation(d) makes a sprite face along d: the switch turns
      the player's sprites towards where the player is walking. */
  lemma RotationFacesDirection(d: Direction)
    ensures Rotation(d) % 45 == 0
    ensures Facing(Rotation(d)) == Unit(d)
  {
    var up := (0, 1);
    assert Turns(up, 1) == (-1, 1);
    assert Turns(up, 2) == (-1, 0);
    assert Turns(up, 3) == (-1, -1);
    assert Turns(up, 4) == (0, -1);
    assert Turns(up, 5) == (1, -1);
    assert Turns(up, 6) == (1, 0);
    assert Turns(up, 7) == (1, 1);
  }

  /** Distinct directions get distinct rotations, even up to full turns. */
  lemma RotationIsInjective(d: Direction, e: Direction)
    requires (Rotation(d) - Rotation(e)) % 360 == 0
    ensures d == e
  {
    var diff := Rotation(d) - Rotation(e);
    var q := diff / 360;
    assert diff == 360 * q;
    assert -2 < q < 2;
    assert diff == 0 || diff == 360 || diff == -360;
  }
}
