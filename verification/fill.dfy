/** MapGenerator.fillInPixels: copy one half of a neighbour tile into the
    opposite half of the target buffer. Adjacent tile indices overlap by half
    a tile, so the half of the neighbour nearest the target is exactly the
    half of the target already known. All index arithmetic is C# integer
    division on non-negative values, so for an odd size n the two halves are
    n / 2 and n - n / 2 wide. */
module Fill {
  import opened Optional
  import opened Pixels

  /** Where fillInPixels takes the pixel it writes at target row y, column
      x of an n-by-n image, for neighbour offset (ox, oy) = target - neighbour;
      None when it leaves that target pixel alone. */
  function SourceOf(n: nat, ox: int, oy: int, y: nat, x: nat): (r: Option<(nat, nat)>)
    requires y < n && x < n
    ensures r.Some? ==> r.value.0 < n && r.value.1 < n
  {
    var m := n / 2;
    if ox == 0 && oy == 1 then
      (if y < n - m then Some((y + m, x)) else None)
    else if ox == 0 && oy == -1 then
      (if m <= y < 2 * m then Some((y - m, x)) else None)
    else if ox == -1 && oy == 0 then
      (if m <= x < 2 * m then Some((y, x - m)) else None)
    else if ox == 1 && oy == 0 then
      (if x < n - m then Some((y, x + m)) else None)
    else None
  }

  /** The pixel fillInPixels leaves at (y, x). */
  function Filled(src: Image, tgt: Image, n: nat, ox: int, oy: int, y: nat, x: nat): Pixel
    requires IsSquare(src, n) && IsSquare(tgt, n)
    requires y < n && x < n
  {
    match SourceOf(n, ox, oy, y, x)
    case Some(p) => src[p.0][p.1]
    case None => tgt[y][x]
  }

  /** Region-copy reading of fillInPixels: whole half-rows and half-columns
      are moved as slices. */
  function FillIn(src: Image, tgt: Image, n: nat, ox: int, oy: int): (r: Image)
    requires IsSquare(src, n) && IsSquare(tgt, n)
    ensures IsSquare(r, n)
  {
    var m := n / 2;
    if ox == 0 && oy == 1 then
      src[m..] + tgt[n - m..]
    else if ox == 0 && oy == -1 then
      tgt[..m] + src[..m] + tgt[2 * m..]
    else if ox == -1 && oy == 0 then
      seq(n, y requires 0 <= y < n => tgt[y][..m] + src[y][..m] + tgt[y][2 * m..])
    else if ox == 1 && oy == 0 then
      seq(n, y requires 0 <= y < n => src[y][m..] + tgt[y][n - m..])
    else
      tgt
  }

  /** The region copy moves exactly the pixels SourceOf names and leaves
      every other pixel of the target as it was. */
  lemma FillInPointwise(src: Image, tgt: Image, n: nat, ox: int, oy: int)
    requires IsSquare(src, n) && IsSquare(tgt, n)
    ensures forall y, x :: 0 <= y < n && 0 <= x < n ==>
              FillIn(src, tgt, n, ox, oy)[y][x] == Filled(src, tgt, n, ox, oy, y, x)
  {
    var r := FillIn(src, tgt, n, ox, oy);
    var m := n / 2;
    forall y, x | 0 <= y < n && 0 <= x < n
      ensures r[y][x] == Filled(src, tgt, n, ox, oy, y, x)
    {
      if ox == 0 && oy == 1 {
        if y < n - m {
          assert r[y] == src[y + m];
        } else {
          assert r[y] == tgt[y];
        }
      } else if ox == 0 && oy == -1 {
        if y < m {
          assert r[y] == tgt[y];
        } else if y < 2 * m {
          assert r[y] == src[y - m];
        } else {
          assert r[y] == tgt[y];
        }
      } else if ox == -1 && oy == 0 {
        assert r[y] == tgt[y][..m] + src[y][..m] + tgt[y][2 * m..];
      } else if ox == 1 && oy == 0 {
        assert r[y] == src[y][m..] + tgt[y][n - m..];
      }
    }
  }

  /** Offset (0, 1): source rows n/2 .. n-1 land in target rows
      0 .. n-1-n/2, column for column; nothing else changes. */
  lemma {:induction false} UpCopiesUpperRows(src: Image, tgt: Image, n: nat)
    requires IsSquare(src, n) && IsSquare(tgt, n)
    ensures forall y, x :: 0 <= y < n && 0 <= x < n ==>
              FillIn(src, tgt, n, 0, 1)[y][x] == (if y < n - n / 2 then src[y + n / 2][x] else tgt[y][x])
  {
    FillInPointwise(src, tgt, n, 0, 1);
  }

  /** Offset (0, -1): source rows 0 .. n/2-1 land in target rows
      n/2 .. 2*(n/2)-1; nothing else changes (for odd n the last row keeps
      its old value). */
  lemma {:induction false} DownCopiesLowerRows(src: Image, tgt: Image, n: nat)
    requires IsSquare(src, n) && IsSquare(tgt, n)
    ensures forall y, x :: 0 <= y < n && 0 <= x < n ==>
              FillIn(src, tgt, n, 0, -1)[y][x] == (if n / 2 <= y < 2 * (n / 2) then src[y - n / 2][x] else tgt[y][x])
  {
    FillInPointwise(src, tgt, n, 0, -1);
  }

  /** Offset (-1, 0): source columns 0 .. n/2-1 land in target columns
      n/2 .. 2*(n/2)-1; nothing else changes. */
  lemma {:induction false} LeftCopiesLowColumns(src: Image, tgt: Image, n: nat)
    requires IsSquare(src, n) && IsSquare(tgt, n)
    ensures forall y, x :: 0 <= y < n && 0 <= x < n ==>
              FillIn(src, tgt, n, -1, 0)[y][x] == (if n / 2 <= x < 2 * (n / 2) then src[y][x - n / 2] else tgt[y][x])
  {
    FillInPointwise(src, tgt, n, -1, 0);
  }

  /** Offset (1, 0): source columns n/2 .. n-1 land in target columns
      0 .. n-1-n/2; nothing else changes. */
  lemma {:induction false} RightCopiesHighColumns(src: Image, tgt: Image, n: nat)
    requires IsSquare(src, n) && IsSquare(tgt, n)
    ensures forall y, x :: 0 <= y < n && 0 <= x < n ==>
              FillIn(src, tgt, n, 1, 0)[y][x] == (if x < n - n / 2 then src[y][x + n / 2] else tgt[y][x])
  {
    FillInPointwise(src, tgt, n, 1, 0);
  }

  /** Any offset other than the four unit offsets leaves the target as it is. */
  lemma OtherOffsetsAreNoOps(src: Image, tgt: Image, n: nat, ox: int, oy: int)
    requires IsSquare(src, n) && IsSquare(tgt, n)
    requires !(ox == 0 && (oy == 1 || oy == -1)) && !(oy == 0 && (ox == 1 || ox == -1))
    ensures FillIn(src, tgt, n, ox, oy) == tgt
  {
  }

  /** For odd n the halves are not symmetric: offset (0, 1) fills the middle
      row n/2, while offset (0, -1) never reaches the last row n - 1. */
  lemma OddSizeHalves(n: nat)
    requires n % 2 == 1
    ensures SourceOf(n, 0, 1, n / 2, 0).Some?
    ensures SourceOf(n, 0, -1, n - 1, 0).None?
    ensures SourceOf(n, 1, 0, 0, n / 2).Some?
    ensures SourceOf(n, -1, 0, 0, n - 1).None?
  {
  }

  /** fillInPixels as written: dispatch on the offset to one of four
      nested-loop copies; any other offset writes nothing. */
  method FillInPixels(src: Image, tgt: Image, n: nat, ox: int, oy: int) returns (r: Image)
    requires IsSquare(src, n) && IsSquare(tgt, n)
    ensures r == FillIn(src, tgt, n, ox, oy)
  {
    if ox == 0 && oy == 1 {
      r := CopyUp(src, tgt, n);
    } else if ox == 0 && oy == -1 {
      r := CopyDown(src, tgt, n);
    } else if ox == -1 && oy == 0 {
      r := CopyLeft(src, tgt, n);
    } else if ox == 1 && oy == 0 {
      r := CopyRight(src, tgt, n);
    } else {
      r := tgt;
    }
    FillInPointwise(src, tgt, n, ox, oy);
    PointwiseEqual(r, FillIn(src, tgt, n, ox, oy), n, n);
  }

  /** The "top" branch: for y in [n/2, n), x in [0, n), target (y - n/2, x)
      receives source (y, x). */
  method CopyUp(src: Image, tgt: Image, n: nat) returns (r: Image)
    requires IsSquare(src, n) && IsSquare(tgt, n)
    ensures IsSquare(r, n)
    ensures forall i, j :: 0 <= i < n && 0 <= j < n ==> r[i][j] == Filled(src, tgt, n, 0, 1, i, j)
  {
    var m := n / 2;
    r := tgt;
    var y := m;
    while y < n
      invariant m <= y <= n
      invariant IsSquare(r, n)
      invariant forall i, j :: 0 <= i < n && 0 <= j < n ==>
                  r[i][j] == (if i < y - m then src[i + m][j] else tgt[i][j])
    {
      var x := 0;
      while x < n
        invariant 0 <= x <= n
        invariant IsSquare(r, n)
        invariant forall i, j :: 0 <= i < n && 0 <= j < n ==>
                    r[i][j] == (if i < y - m || (i == y - m && j < x) then src[i + m][j] else tgt[i][j])
      {
        r := r[y - m := r[y - m][x := src[y][x]]];
        x := x + 1;
      }
      y := y + 1;
    }
  }

  /** The "bottom" branch: for y in [0, n/2), x in [0, n), target
      (y + n/2, x) receives source (y, x). */
  method CopyDown(src: Image, tgt: Image, n: nat) returns (r: Image)
    requires IsSquare(src, n) && IsSquare(tgt, n)
    ensures IsSquare(r, n)
    ensures forall i, j :: 0 <= i < n && 0 <= j < n ==> r[i][j] == Filled(src, tgt, n, 0, -1, i, j)
  {
    var m := n / 2;
    r := tgt;
    var y := 0;
    while y < m
      invariant 0 <= y <= m
      invariant IsSquare(r, n)
      invariant forall i, j :: 0 <= i < n && 0 <= j < n ==>
                  r[i][j] == (if m <= i < y + m then src[i - m][j] else tgt[i][j])
    {
      var x := 0;
      while x < n
        invariant 0 <= x <= n
        invariant IsSquare(r, n)
        invariant forall i, j :: 0 <= i < n && 0 <= j < n ==>
                    r[i][j] == (if m <= i < y + m || (i == y + m && j < x) then src[i - m][j] else tgt[i][j])
      {
        r := r[y + m := r[y + m][x := src[y][x]]];
        x := x + 1;
      }
      y := y + 1;
    }
  }

  /** The "left" branch: for y in [0, n), x in [0, n/2), target
      (y, x + n/2) receives source (y, x). */
  method CopyLeft(src: Image, tgt: Image, n: nat) returns (r: Image)
    requires IsSquare(src, n) && IsSquare(tgt, n)
    ensures IsSquare(r, n)
    ensures forall i, j :: 0 <= i < n && 0 <= j < n ==> r[i][j] == Filled(src, tgt, n, -1, 0, i, j)
  {
    var m := n / 2;
    r := tgt;
    var y := 0;
    while y < n
      invariant 0 <= y <= n
      invariant IsSquare(r, n)
      invariant forall i, j :: 0 <= i < n && 0 <= j < n ==>
                  r[i][j] == (if i < y && m <= j < 2 * m then src[i][j - m] else tgt[i][j])
    {
      var x := 0;
      while x < m
        invariant 0 <= x <= m
        invariant IsSquare(r, n)
        invariant forall i, j :: 0 <= i < n && 0 <= j < n ==>
                    r[i][j] == (if (i < y && m <= j < 2 * m) || (i == y && m <= j < x + m) then src[i][j - m] else tgt[i][j])
      {
        r := r[y := r[y][x + m := src[y][x]]];
        x := x + 1;
      }
      y := y + 1;
    }
  }

  /** The "right" branch: for y in [0, n), x in [n/2, n), target
      (y, x - n/2) receives source (y, x). */
  method CopyRight(src: Image, tgt: Image, n: nat) returns (r: Image)
    requires IsSquare(src, n) && IsSquare(tgt, n)
    ensures IsSquare(r, n)
    ensures forall i, j :: 0 <= i < n && 0 <= j < n ==> r[i][j] == Filled(src, tgt, n, 1, 0, i, j)
  {
    var m := n / 2;
    r := tgt;
    var y := 0;
    while y < n
      invariant 0 <= y <= n
      invariant IsSquare(r, n)
      invariant forall i, j :: 0 <= i < n && 0 <= j < n ==>
                  r[i][j] == (if i < y && j < n - m then src[i][j + m] else tgt[i][j])
    {
      var x := m;
      while x < n
        invariant m <= x <= n
        invariant IsSquare(r, n)
        invariant forall i, j :: 0 <= i < n && 0 <= j < n ==>
                    r[i][j] == (if (i < y && j < n - m) || (i == y && j < x - m) then src[i][j + m] else tgt[i][j])
      {
        r := r[y := r[y][x - m := src[y][x]]];
        x := x + 1;
      }
      y := y + 1;
    }
  }
}
