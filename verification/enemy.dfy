/** BaseEnemy.Update: an enemy on screen snaps its heading to the nearest
    of eight directions towards the player and steps forward. The bearing
    `angle` is Mathf.Atan2(dy, dx) in degrees (0 = towards +x, counter-
    clockwise positive); the trigonometry and the on-screen test are inputs
    here. */
module Enemy {
  import opened Optional
  import opened Tiles
  import opened Heading

  /** The rotation the if/else-if chain assigns for a bearing, as written:
      eight half-open 45-degree sectors, the Left sector wrapping around
      +-180. */
  function SectorRotation(angle: real): int
  {
    if angle > -22.5 && angle <= 22.5 then 270
    else if angle > 22.5 && angle <= 67.5 then -45
    else if angle > 67.5 && angle <= 112.5 then 0
    else if angle > 112.5 && angle <= 157.5 then 45
    else if angle > 157.5 || angle <= -157.5 then 90
    else if angle > -157.5 && angle <= -112.5 then 135
    else if angle > -112.5 && angle <= -67.5 then 180
    else -135
  }

  /** One frame: off screen the enemy neither turns nor moves (None); on
      screen it turns to the sector's rotation and advances along it. */
  function EnemyUpdate(inView: bool, angle: real): (r: Option<int>)
    requires -180.0 <= angle <= 180.0
    ensures r.Some? <==> inView
    ensures r.Some? ==> forall d :: r.value == Rotation(d) <==> Near(d, angle)
  {
    if !inView then None
    else
      ChainPicksNearest(angle);
      Some(SectorRotation(angle))
  }

  /** The Atan2 bearing of a direction's compass vector, in degrees. */
  function Bearing(d: Direction): real
  {
    match d
    case Right => 0.0
    case TopRight => 45.0
    case Up => 90.0
    case TopLeft => 135.0
    case Left => 180.0
    case BottomLeft => -135.0
    case Down => -90.0
    case BottomRight => -45.0
  }

  /** `angle` lies in the half-open window (c - 22.5, c + 22.5] around d's
      bearing c, up to a full turn. */
  predicate Near(d: Direction, angle: real)
  {
    var c := Bearing(d);
    (c - 22.5 < angle <= c + 22.5)
    || (c - 22.5 < angle + 360.0 <= c + 22.5)
    || (c - 22.5 < angle - 360.0 <= c + 22.5)
  }

  /** The direction of the sector the chain selects. */
  lemma SectorDirection(angle: real) returns (d: Direction)
    ensures SectorRotation(angle) == Rotation(d)
  {
    if angle > -22.5 && angle <= 22.5 { d := Right; }
    else if angle > 22.5 && angle <= 67.5 { d := TopRight; }
    else if angle > 67.5 && angle <= 112.5 { d := Up; }
    else if angle > 112.5 && angle <= 157.5 { d := TopLeft; }
    else if angle > 157.5 || angle <= -157.5 { d := Left; }
    else if angle > -157.5 && angle <= -112.5 { d := BottomLeft; }
    else if angle > -112.5 && angle <= -67.5 { d := Down; }
    else { d := BottomRight; }
  }

  /** For every Atan2 bearing, the chain picks the rotation of exactly the
      direction whose 45-degree window holds the bearing. */
  lemma ChainPicksNearest(angle: real)
    requires -180.0 <= angle <= 180.0
    ensures forall d :: SectorRotation(angle) == Rotation(d) <==> Near(d, angle)
  {
    var e := SectorDirection(angle);
    forall d
      ensures SectorRotation(angle) == Rotation(d) <==> Near(d, angle)
    {
      if Rotation(d) == Rotation(e) {
        RotationIsInjective(d, e);
      }
    }
  }

  /** Every bearing lies in exactly one window. */
  lemma WindowsPartitionTheCircle(angle: real, d: Direction, e: Direction)
    requires -180.0 <= angle <= 180.0
    ensures exists f :: Near(f, angle)
    ensures Near(d, angle) && Near(e, angle) ==> d == e
  {
    ChainPicksNearest(angle);
    var f := SectorDirection(angle);
    assert Near(f, angle);
  }

  /** An enemy on screen ends up facing (and so stepping) along the compass
      vector of the direction nearest to its bearing to the player. */
  lemma {:induction false} EnemyFacesPlayer(angle: real, d: Direction)
    requires -180.0 <= angle <= 180.0 && Near(d, angle)
    ensures EnemyUpdate(true, angle) == Some(Rotation(d))
    ensures Facing(EnemyUpdate(true, angle).value) == Unit(d)
  {
    ChainPicksNearest(angle);
    RotationFacesDirection(d);
  }

  /** The boundaries fall on the counter-clockwise-later side of each
      window's upper edge as written: 22.5 still faces right, 67.5 still
      faces up-right, -157.5 faces left, and both +-180 face left. */
  lemma WindowBoundaries()
    ensures SectorRotation(22.5) == Rotation(Right)
    ensures SectorRotation(67.5) == Rotation(TopRight)
    ensures SectorRotation(-157.5) == Rotation(Left)
    ensures SectorRotation(180.0) == Rotation(Left) && SectorRotation(-180.0) == Rotation(Left)
  {
  }
}
