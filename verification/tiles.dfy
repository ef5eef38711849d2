/** Vocabulary shared by the map generator, the player and the enemies:
    integer tile indices, the eight ExtendDirection values and the render
    status of a tile. */
module Tiles {
  import opened Optional

  /** A tile's integer grid index (x, y). The y axis grows upwards, as in
      Unity world space. Tiles sit at index * size / 2, so neighbouring
      indices overlap by half a tile. */
  type Key = (int, int)

  /** The index of the first (seed) tile. */
  const SeedKey: Key := (0, 0)

  /** ExtendDirection, in declaration order. */
  datatype Direction = Up | Down | Left | Right | TopLeft | TopRight | BottomLeft | BottomRight

  /** SpriteRenderStatus: a key present in the registry is either waiting
      for its image or has a sprite on screen. */
  datatype Status = Pending | Rendered

  /** The integer value of an enum member (its declaration position). */
  function Ordinal(d: Direction): (i: nat)
    ensures i < 8
  {
    match d
    case Up => 0
    case Down => 1
    case Left => 2
    case Right => 3
    case TopLeft => 4
    case TopRight => 5
    case BottomLeft => 6
    case BottomRight => 7
  }

  /** The C# cast `(ExtendDirection)i` for 0 <= i < 8. */
  function FromOrdinal(i: nat): (d: Direction)
    requires i < 8
    ensures Ordinal(d) == i
  {
    if i == 0 then Up
    else if i == 1 then Down
    else if i == 2 then Left
    else if i == 3 then Right
    else if i == 4 then TopLeft
    else if i == 5 then TopRight
    else if i == 6 then BottomLeft
    else BottomRight
  }

  /** The compass vector (dx, dy) a direction points along. */
  function Unit(d: Direction): (int, int)
  {
    match d
    case Up => (0, 1)
    case Down => (0, -1)
    case Left => (-1, 0)
    case Right => (1, 0)
    case TopLeft => (-1, 1)
    case TopRight => (1, 1)
    case BottomLeft => (-1, -1)
    case BottomRight => (1, -1)
  }

  /** Up, Down, Left and Right. */
  predicate IsEdge(d: Direction)
  {
    d.Up? || d.Down? || d.Left? || d.Right?
  }

  /** An orthogonal unit offset: (0, 1), (0, -1), (-1, 0) or (1, 0). */
  predicate IsUnitOffset(o: (int, int))
  {
    (o.0 == 0 && (o.1 == 1 || o.1 == -1)) || (o.1 == 0 && (o.0 == 1 || o.0 == -1))
  }

  /** A diagonal unit offset (+-1, +-1). */
  predicate IsDiagonalOffset(o: (int, int))
  {
    (o.0 == 1 || o.0 == -1) && (o.1 == 1 || o.1 == -1)
  }

  function Add(a: (int, int), b: (int, int)): (int, int)
  {
    (a.0 + b.0, a.1 + b.1)
  }

  /** Every non-zero vector with components in {-1, 0, 1} is the compass
      vector of exactly one direction; edges are the orthogonal ones. */
  lemma UnitIsBijective(d: Direction, e: Direction)
    ensures Unit(d) == Unit(e) ==> d == e
    ensures IsEdge(d) <==> IsUnitOffset(Unit(d))
    ensures !IsEdge(d) <==> IsDiagonalOffset(Unit(d))
  {
  }

  /** The direction whose compass vector is `o`, if any. */
  function DirectionOfVector(o: (int, int)): (r: Option<Direction>)
    ensures r.Some? <==> IsUnitOffset(o) || IsDiagonalOffset(o)
    ensures r.Some? ==> Unit(r.value) == o
  {
    if o == (0, 1) then Some(Up)
    else if o == (0, -1) then Some(Down)
    else if o == (-1, 0) then Some(Left)
    else if o == (1, 0) then Some(Right)
    else if o == (-1, 1) then Some(TopLeft)
    else if o == (1, 1) then Some(TopRight)
    else if o == (-1, -1) then Some(BottomLeft)
    else if o == (1, -1) then Some(BottomRight)
    else None
  }
}
