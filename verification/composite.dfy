/** MapGenerator.CreateInpaintSourceTexture, once the neighbour list is
    known: an all-transparent buffer the size of the seed tile, one
    fillInPixels per neighbour, and the ExtendDirection inferred from the
    offsets target - neighbour. The `sourceIndex` and `direction` parameters
    of the source method are never read, so they do not appear here. */
module Composite {
  import opened Optional
  import opened Tiles
  import opened Pixels
  import opened Fill

  /** One entry of the neighbour list: a rendered tile's texture and index. */
  datatype Neighbour = Neighbour(image: Image, index: Key)

  /** `targetIndex - neighbour`, the offset fillInPixels dispatches on. */
  function OffsetFrom(target: Key, nb: Key): (int, int)
  {
    (target.0 - nb.0, target.1 - nb.1)
  }

  /** Every neighbour texture is n-by-n, the seed tile's size. */
  predicate AllSquare(nbrs: seq<Neighbour>, n: nat)
  {
    forall i :: 0 <= i < |nbrs| ==> IsSquare(nbrs[i].image, n)
  }

  /** Two orthogonal unit offsets whose sum is a diagonal unit vector. */
  predicate IsCornerPair(o1: (int, int), o2: (int, int))
  {
    IsUnitOffset(o1) && IsUnitOffset(o2) && IsDiagonalOffset(Add(o1, o2))
  }

  /** The one-neighbour classification: Up, Down, Left or Right for
      offsets (0, 1), (0, -1), (-1, 0), (1, 0); None (a null texture) for
      anything else. */
  function EdgeDirection(o: (int, int)): (r: Option<Direction>)
    ensures r.Some? <==> IsUnitOffset(o)
    ensures r.Some? ==> IsEdge(r.value) && Unit(r.value) == o
  {
    if o == (0, 1) then Some(Up)
    else if o == (0, -1) then Some(Down)
    else if o == (-1, 0) then Some(Left)
    else if o == (1, 0) then Some(Right)
    else None
  }

  /** The two-neighbour classification, each corner accepted in either
      order; opposite or repeated offsets give None. */
  function CornerDirection(o1: (int, int), o2: (int, int)): (r: Option<Direction>)
    ensures r.Some? <==> IsCornerPair(o1, o2)
    ensures r.Some? ==> !IsEdge(r.value) && Unit(r.value) == Add(o1, o2)
  {
    if (o1 == (0, 1) && o2 == (1, 0)) || (o1 == (1, 0) && o2 == (0, 1)) then Some(TopRight)
    else if (o1 == (0, 1) && o2 == (-1, 0)) || (o1 == (-1, 0) && o2 == (0, 1)) then Some(TopLeft)
    else if (o1 == (0, -1) && o2 == (1, 0)) || (o1 == (1, 0) && o2 == (0, -1)) then Some(BottomRight)
    else if (o1 == (0, -1) && o2 == (-1, 0)) || (o1 == (-1, 0) && o2 == (0, -1)) then Some(BottomLeft)
    else None
  }

  /** The corner classification does not depend on the order in which the
      two neighbours were listed. */
  lemma CornerDirectionSymmetric(o1: (int, int), o2: (int, int))
    ensures CornerDirection(o1, o2) == CornerDirection(o2, o1)
  {
    if CornerDirection(o1, o2).Some? {
      UnitIsBijective(CornerDirection(o1, o2).value, CornerDirection(o2, o1).value);
    }
  }

  /** CreateInpaintSourceTexture after the neighbour lookup: None stands
      for the `(null, Up)` results. */
  function CreateInpaintSource(nbrs: seq<Neighbour>, target: Key, n: nat): (r: Option<(Image, Direction)>)
    requires AllSquare(nbrs, n)
    ensures r.Some? ==> IsSquare(r.value.0, n)
    ensures |nbrs| == 0 ==> r.None?
    ensures |nbrs| == 1 ==>
              (r.Some? <==> IsUnitOffset(OffsetFrom(target, nbrs[0].index)))
              && (r.Some? ==> IsEdge(r.value.1) && Unit(r.value.1) == OffsetFrom(target, nbrs[0].index))
    ensures |nbrs| == 2 ==>
              var o1 := OffsetFrom(target, nbrs[0].index);
              var o2 := OffsetFrom(target, nbrs[1].index);
              (r.Some? <==> IsCornerPair(o1, o2))
              && (r.Some? ==> !IsEdge(r.value.1) && Unit(r.value.1) == Add(o1, o2))
    ensures |nbrs| >= 3 ==>
              (r.Some? && r.value.1 == Up
               && forall y, x :: 0 <= y < n && 0 <= x < n ==> r.value.0[y][x] == Transparent)
  {
    var blank := Blank(n, n);
    if |nbrs| == 0 then
      None
    else if |nbrs| == 1 then
      var o := OffsetFrom(target, nbrs[0].index);
      var pixels := FillIn(nbrs[0].image, blank, n, o.0, o.1);
      match EdgeDirection(o)
      case Some(d) => Some((pixels, d))
      case None => None
    else if |nbrs| == 2 then
      var o1 := OffsetFrom(target, nbrs[0].index);
      var o2 := OffsetFrom(target, nbrs[1].index);
      var pixels := FillIn(nbrs[1].image, FillIn(nbrs[0].image, blank, n, o1.0, o1.1), n, o2.0, o2.1);
      match CornerDirection(o1, o2)
      case Some(d) => Some((pixels, d))
      case None => None
    else
      Some((blank, Up))
  }

  /** The pixel at (y, x) after applying `nbrs` in order over a transparent
      buffer: the last neighbour whose half-copy reaches (y, x) decides it,
      and a pixel no copy reaches stays transparent. */
  function Layered(nbrs: seq<Neighbour>, target: Key, n: nat, y: nat, x: nat): Pixel
    requires y < n && x < n
    requires AllSquare(nbrs, n)
    decreases |nbrs|
  {
    if nbrs == [] then Transparent
    else
      var last := nbrs[|nbrs| - 1];
      var o := OffsetFrom(target, last.index);
      match SourceOf(n, o.0, o.1, y, x)
      case Some(p) => last.image[p.0][p.1]
      case None => Layered(nbrs[..|nbrs| - 1], target, n, y, x)
  }

  /** A lone neighbour one step behind the target in edge direction d
      yields a texture, extended in direction d. */
  lemma LoneNeighbourDirection(nbrs: seq<Neighbour>, target: Key, n: nat, d: Direction)
    requires AllSquare(nbrs, n) && |nbrs| == 1
    requires IsEdge(d) && OffsetFrom(target, nbrs[0].index) == Unit(d)
    ensures CreateInpaintSource(nbrs, target, n).Some?
    ensures CreateInpaintSource(nbrs, target, n).value.1 == d
  {
    UnitIsBijective(d, d);
    var r := CreateInpaintSource(nbrs, target, n);
    UnitIsBijective(r.value.1, d);
  }

  /** Two neighbours behind the target in edge directions d1 and d2 whose
      vectors add up to the corner c yield a texture, extended towards c. */
  lemma CornerPairDirection(nbrs: seq<Neighbour>, target: Key, n: nat, d1: Direction, d2: Direction, c: Direction)
    requires AllSquare(nbrs, n) && |nbrs| == 2
    requires IsEdge(d1) && IsEdge(d2) && !IsEdge(c)
    requires OffsetFrom(target, nbrs[0].index) == Unit(d1) && OffsetFrom(target, nbrs[1].index) == Unit(d2)
    requires Unit(c) == Add(Unit(d1), Unit(d2))
    ensures CreateInpaintSource(nbrs, target, n).Some?
    ensures CreateInpaintSource(nbrs, target, n).value.1 == c
  {
    UnitIsBijective(d1, d1);
    UnitIsBijective(d2, d2);
    UnitIsBijective(c, c);
    var r := CreateInpaintSource(nbrs, target, n);
    UnitIsBijective(r.value.1, c);
  }

  /** With one or two neighbours the composite holds, pixel for pixel, the
      half-copies of the neighbours over transparency, the later neighbour
      winning where both copies reach. */
  lemma {:induction false} CompositeIsLayered(nbrs: seq<Neighbour>, target: Key, n: nat)
    requires AllSquare(nbrs, n)
    requires 1 <= |nbrs| <= 2
    requires CreateInpaintSource(nbrs, target, n).Some?
    ensures forall y, x :: 0 <= y < n && 0 <= x < n ==>
              CreateInpaintSource(nbrs, target, n).value.0[y][x] == Layered(nbrs, target, n, y, x)
  {
    var blank := Blank(n, n);
    var o1 := OffsetFrom(target, nbrs[0].index);
    var first := FillIn(nbrs[0].image, blank, n, o1.0, o1.1);
    FillInPointwise(nbrs[0].image, blank, n, o1.0, o1.1);
    var one := nbrs[..1];
    assert one == [nbrs[0]];
    forall y, x | 0 <= y < n && 0 <= x < n
      ensures first[y][x] == Layered(one, target, n, y, x)
    {
      assert one[..0] == [];
    }
    if |nbrs| == 2 {
      var o2 := OffsetFrom(target, nbrs[1].index);
      FillInPointwise(nbrs[1].image, first, n, o2.0, o2.1);
      forall y, x | 0 <= y < n && 0 <= x < n
        ensures CreateInpaintSource(nbrs, target, n).value.0[y][x] == Layered(nbrs, target, n, y, x)
      {
        assert nbrs[..|nbrs| - 1] == one;
      }
    }
  }

  /** Which neighbour's copy reaches (y, x), if any. */
  predicate Reaches(nb: Neighbour, target: Key, n: nat, y: nat, x: nat)
    requires y < n && x < n
  {
    var o := OffsetFrom(target, nb.index);
    SourceOf(n, o.0, o.1, y, x).Some?
  }

  /** The two orders of a corner pair give the same direction, and the
      same pixel wherever at most one of the two copies reaches. */
  lemma {:induction false} CornerOrderInsensitive(a: Neighbour, b: Neighbour, target: Key, n: nat)
    requires IsSquare(a.image, n) && IsSquare(b.image, n)
    ensures CreateInpaintSource([a, b], target, n).Some? <==> CreateInpaintSource([b, a], target, n).Some?
    ensures CreateInpaintSource([a, b], target, n).Some? ==>
              CreateInpaintSource([a, b], target, n).value.1 == CreateInpaintSource([b, a], target, n).value.1
              && forall y, x :: 0 <= y < n && 0 <= x < n && !(Reaches(a, target, n, y, x) && Reaches(b, target, n, y, x)) ==>
                   CreateInpaintSource([a, b], target, n).value.0[y][x] == CreateInpaintSource([b, a], target, n).value.0[y][x]
  {
    var ab := [a, b];
    var ba := [b, a];
    CornerDirectionSymmetric(OffsetFrom(target, a.index), OffsetFrom(target, b.index));
    if CreateInpaintSource(ab, target, n).Some? {
      CompositeIsLayered(ab, target, n);
      CompositeIsLayered(ba, target, n);
      forall y, x | 0 <= y < n && 0 <= x < n && !(Reaches(a, target, n, y, x) && Reaches(b, target, n, y, x))
        ensures Layered(ab, target, n, y, x) == Layered(ba, target, n, y, x)
      {
        assert ab[..1] == [a];
        assert ba[..1] == [b];
        assert [a][..0] == [];
        assert [b][..0] == [];
      }
    }
  }

  /** Up plus Right (the TopRight corner): the quadrant of high rows and high
      columns, the part neither neighbour overlaps, is fully transparent;
      every other pixel is a copy of a neighbour pixel. */
  lemma {:induction false} TopRightLeavesFarQuadrantClear(below: Neighbour, left: Neighbour, target: Key, n: nat)
    requires IsSquare(below.image, n) && IsSquare(left.image, n)
    requires OffsetFrom(target, below.index) == (0, 1) && OffsetFrom(target, left.index) == (1, 0)
    ensures CreateInpaintSource([below, left], target, n).Some?
    ensures CreateInpaintSource([below, left], target, n).value.1 == TopRight
    ensures forall y, x :: 0 <= y < n && 0 <= x < n ==>
              var px := CreateInpaintSource([below, left], target, n).value.0[y][x];
              if y >= n - n / 2 && x >= n - n / 2 then px == Transparent
              else if x < n - n / 2 then px == left.image[y][x + n / 2]
              else px == below.image[y + n / 2][x]
  {
    CompositeIsLayered([below, left], target, n);
    assert [below, left][..1] == [below];
    assert [below][..0] == [];
  }
}
