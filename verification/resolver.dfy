/** MapGenerator.GetRenderedNeighborTileIndex: which orthogonal neighbours
    of a target tile can serve as inpainting sources. */
module Resolver {
  import opened Tiles

  /** The neighbour a tile extends from when it grows in direction d:
      `target - Unit(d)`, so that `target - neighbour == Unit(d)`. */
  function Behind(t: Key, d: Direction): Key
  {
    (t.0 - Unit(d).0, t.1 - Unit(d).1)
  }

  /** The dictionary of candidate neighbours, in insertion order (the order
      its keys are enumerated): Down (x, y+1), Up (x, y-1), Right (x-1, y),
      Left (x+1, y). The four diagonal entries are commented out in the
      source and take no part. */
  const Order: seq<Direction> := [Down, Up, Right, Left]

  function Candidates(t: Key): (c: seq<Key>)
    ensures |c| == 4
    ensures forall i :: 0 <= i < 4 ==> c[i] == Behind(t, Order[i])
  {
    [(t.0, t.1 + 1), (t.0, t.1 - 1), (t.0 - 1, t.1), (t.0 + 1, t.1)]
  }

  /** Position of an edge direction in the enumeration order. */
  function Rank(d: Direction): nat
  {
    match d
    case Down => 0
    case Up => 1
    case Right => 2
    case Left => 3
    case _ => 4
  }

  /** Position of a key among a target's candidates (4 for a non-candidate). */
  function RankOf(t: Key, k: Key): nat
  {
    if k == Behind(t, Down) then 0
    else if k == Behind(t, Up) then 1
    else if k == Behind(t, Right) then 2
    else if k == Behind(t, Left) then 3
    else 4
  }

  predicate HasStatus(reg: map<Key, Status>, k: Key, st: Status)
  {
    k in reg && reg[k] == st
  }

  /** Some orthogonal neighbour of t is still waiting for its image. */
  predicate AnyPendingNeighbour(reg: map<Key, Status>, t: Key)
  {
    exists d :: IsEdge(d) && HasStatus(reg, Behind(t, d), Pending)
  }

  /** The foreach loop over the first `count` candidates: the Rendered ones
      collected in order, and whether any was Pending. */
  function Scan(reg: map<Key, Status>, t: Key, count: nat): (res: (seq<Key>, bool))
    requires count <= 4
    ensures res.1 <==> exists i :: 0 <= i < count && HasStatus(reg, Candidates(t)[i], Pending)
    ensures forall i :: 0 <= i < count ==> (HasStatus(reg, Candidates(t)[i], Rendered) <==> Candidates(t)[i] in res.0)
    ensures forall i :: 0 <= i < |res.0| ==>
              HasStatus(reg, res.0[i], Rendered) && RankOf(t, res.0[i]) < count
    ensures forall i, j :: 0 <= i < j < |res.0| ==> RankOf(t, res.0[i]) < RankOf(t, res.0[j])
  {
    if count == 0 then ([], false)
    else
      Visit(reg, Scan(reg, t, count - 1), Candidates(t)[count - 1])
  }

  /** GetRenderedNeighborTileIndex: empty if any orthogonal neighbour is
      Pending, otherwise exactly the Rendered orthogonal neighbours, in
      enumeration order. */
  function RenderedNeighbours(reg: map<Key, Status>, t: Key): (r: seq<Key>)
    ensures AnyPendingNeighbour(reg, t) ==> r == []
    ensures !AnyPendingNeighbour(reg, t) ==>
              forall d :: IsEdge(d) ==> (Behind(t, d) in r <==> HasStatus(reg, Behind(t, d), Rendered))
    ensures forall i :: 0 <= i < |r| ==>
              HasStatus(reg, r[i], Rendered) && IsUnitOffset((t.0 - r[i].0, t.1 - r[i].1))
    ensures forall i, j :: 0 <= i < j < |r| ==> RankOf(t, r[i]) < RankOf(t, r[j])
    ensures |r| <= 4
  {
    var res := Scan(reg, t, 4);
    ScanCoversEdges(reg, t);
    if res.1 then [] else res.0
  }

  /** The full scan in terms of directions: it meets a Pending neighbour
      exactly when one exists, and collects exactly the Rendered ones. */
  lemma ScanCoversEdges(reg: map<Key, Status>, t: Key)
    ensures var res := Scan(reg, t, 4);
            && (res.1 <==> AnyPendingNeighbour(reg, t))
            && (forall d :: IsEdge(d) ==> (Behind(t, d) in res.0 <==> HasStatus(reg, Behind(t, d), Rendered)))
            && (forall i :: 0 <= i < |res.0| ==> IsUnitOffset((t.0 - res.0[i].0, t.1 - res.0[i].1)))
            && |res.0| <= 4
  {
    ScanSeesPending(reg, t);
    ScanCollectsRendered(reg, t);
    ScanKeepsCandidates(reg, t);
  }

  lemma ScanSeesPending(reg: map<Key, Status>, t: Key)
    ensures Scan(reg, t, 4).1 <==> AnyPendingNeighbour(reg, t)
  {
    var c := Candidates(t);
    if Scan(reg, t, 4).1 {
      var i :| 0 <= i < 4 && HasStatus(reg, c[i], Pending);
      assert Behind(t, Order[i]) == c[i];
    }
    if AnyPendingNeighbour(reg, t) {
      var d :| IsEdge(d) && HasStatus(reg, Behind(t, d), Pending);
      assert Behind(t, d) == c[Rank(d)];
    }
  }

  lemma ScanCollectsRendered(reg: map<Key, Status>, t: Key)
    ensures forall d :: IsEdge(d) ==> (Behind(t, d) in Scan(reg, t, 4).0 <==> HasStatus(reg, Behind(t, d), Rendered))
  {
    var c := Candidates(t);
    forall d | IsEdge(d)
      ensures Behind(t, d) in Scan(reg, t, 4).0 <==> HasStatus(reg, Behind(t, d), Rendered)
    {
      assert Behind(t, d) == c[Rank(d)];
    }
  }

  lemma ScanKeepsCandidates(reg: map<Key, Status>, t: Key)
    ensures forall i :: 0 <= i < |Scan(reg, t, 4).0| ==> IsUnitOffset((t.0 - Scan(reg, t, 4).0[i].0, t.1 - Scan(reg, t, 4).0[i].1))
    ensures |Scan(reg, t, 4).0| <= 4
  {
    var r := Scan(reg, t, 4).0;
    forall i | 0 <= i < |r|
      ensures IsUnitOffset((t.0 - r[i].0, t.1 - r[i].1))
    {
      assert RankOf(t, r[i]) < 4;
    }
    RankedAreDistinctBound(t, r);
  }

  /** A strictly rank-increasing list of candidates has at most four entries. */
  lemma RankedAreDistinctBound(t: Key, r: seq<Key>)
    requires forall i :: 0 <= i < |r| ==> RankOf(t, r[i]) < 4
    requires forall i, j :: 0 <= i < j < |r| ==> RankOf(t, r[i]) < RankOf(t, r[j])
    ensures |r| <= 4
  {
    if |r| > 0 {
      RankAtLeastIndex(t, r, |r| - 1);
    }
  }

  lemma {:induction false} RankAtLeastIndex(t: Key, r: seq<Key>, i: nat)
    requires i < |r|
    requires forall i, j :: 0 <= i < j < |r| ==> RankOf(t, r[i]) < RankOf(t, r[j])
    ensures RankOf(t, r[i]) >= i
  {
    if i > 0 {
      RankAtLeastIndex(t, r, i - 1);
    }
  }

  /** Two distinct neighbours returned by the resolver form a corner pair
      exactly when they are not opposite each other. */
  lemma TwoNeighboursCornerUnlessOpposite(t: Key, a: Key, b: Key)
    requires IsUnitOffset((t.0 - a.0, t.1 - a.1)) && IsUnitOffset((t.0 - b.0, t.1 - b.1))
    requires a != b
    ensures IsDiagonalOffset(Add((t.0 - a.0, t.1 - a.1), (t.0 - b.0, t.1 - b.1)))
            <==> !(a.0 + b.0 == 2 * t.0 && a.1 + b.1 == 2 * t.1)
  {
  }

  /** Behind is injective on the edge directions, and RankOf recovers Rank. */
  lemma RankOfBehind(t: Key, d: Direction)
    requires IsEdge(d)
    ensures RankOf(t, Behind(t, d)) == Rank(d)
  {
  }

  /** When exactly one orthogonal neighbour is present, and it is Rendered,
      the resolver returns just that neighbour. */
  lemma OneRenderedNeighbour(reg: map<Key, Status>, t: Key, d: Direction)
    requires IsEdge(d) && HasStatus(reg, Behind(t, d), Rendered)
    requires forall e :: IsEdge(e) && e != d ==> Behind(t, e) !in reg
    ensures RenderedNeighbours(reg, t) == [Behind(t, d)]
  {
    ScanUnfolds(reg, t);
  }

  /** When exactly two orthogonal neighbours are present, both Rendered, the
      resolver returns them in enumeration order. */
  lemma TwoRenderedNeighbours(reg: map<Key, Status>, t: Key, d1: Direction, d2: Direction)
    requires IsEdge(d1) && IsEdge(d2) && Rank(d1) < Rank(d2)
    requires HasStatus(reg, Behind(t, d1), Rendered) && HasStatus(reg, Behind(t, d2), Rendered)
    requires forall e :: IsEdge(e) && e != d1 && e != d2 ==> Behind(t, e) !in reg
    ensures RenderedNeighbours(reg, t) == [Behind(t, d1), Behind(t, d2)]
  {
    ScanUnfolds(reg, t);
  }

  /** The full scan, one candidate at a time. */
  lemma ScanUnfolds(reg: map<Key, Status>, t: Key)
    ensures var c := Candidates(t);
            Scan(reg, t, 4) == Visit(reg, Visit(reg, Visit(reg, Visit(reg, ([], false), c[0]), c[1]), c[2]), c[3])
  {
    var c := Candidates(t);
    assert Scan(reg, t, 1) == Visit(reg, ([], false), c[0]);
    assert Scan(reg, t, 2) == Visit(reg, Scan(reg, t, 1), c[1]);
    assert Scan(reg, t, 3) == Visit(reg, Scan(reg, t, 2), c[2]);
    assert Scan(reg, t, 4) == Visit(reg, Scan(reg, t, 3), c[3]);
  }

  /** One iteration of the foreach: collect a Rendered candidate, note a
      Pending one, skip an absent one. */
  function Visit(reg: map<Key, Status>, acc: (seq<Key>, bool), k: Key): (seq<Key>, bool)
  {
    if HasStatus(reg, k, Rendered) then (acc.0 + [k], acc.1)
    else if HasStatus(reg, k, Pending) then (acc.0, true)
    else acc
  }

  /** The edge direction a unit-offset neighbour lies behind. */
  function EdgeOf(t: Key, k: Key): (d: Direction)
    requires IsUnitOffset((t.0 - k.0, t.1 - k.1))
    ensures IsEdge(d) && Behind(t, d) == k
  {
    var o := (t.0 - k.0, t.1 - k.1);
    if o == (0, 1) then Up
    else if o == (0, -1) then Down
    else if o == (-1, 0) then Left
    else Right
  }
}
