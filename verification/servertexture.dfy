/** ServerClient.CreateNewTexture: the mask image the stand-alone client
    uploads for inpainting. The right half of the sprite moves to the left
    half and the right half becomes transparent, so the server is asked to
    continue the picture rightwards. */
module ServerTexture {
  import opened Pixels
  import opened Fill

  /** Region reading of CreateNewTexture on a w-by-h image: each row keeps
      source columns w/2 .. 2*(w/2)-1 and is padded with transparency. */
  function ShiftLeftHalf(img: Image, w: nat, h: nat): (r: Image)
    requires IsImage(img, w, h)
    ensures IsImage(r, w, h)
  {
    seq(h, y requires 0 <= y < h => img[y][w / 2 .. 2 * (w / 2)] + seq(w - w / 2, _ => Transparent))
  }

  /** Pixel by pixel: column x < w/2 of each row shows source column
      x + w/2 of the same row, and columns w/2 .. w-1 are transparent. */
  lemma {:induction false} ShiftLeftHalfPointwise(img: Image, w: nat, h: nat)
    requires IsImage(img, w, h)
    ensures forall y, x :: 0 <= y < h && 0 <= x < w ==>
              ShiftLeftHalf(img, w, h)[y][x] == (if x < w / 2 then img[y][x + w / 2] else Transparent)
  {
    var r := ShiftLeftHalf(img, w, h);
    forall y, x | 0 <= y < h && 0 <= x < w
      ensures r[y][x] == (if x < w / 2 then img[y][x + w / 2] else Transparent)
    {
      assert r[y] == img[y][w / 2 .. 2 * (w / 2)] + seq(w - w / 2, _ => Transparent);
    }
  }

  /** CreateNewTexture as written: a fresh (all-zero, hence transparent)
      pixel array, a first loop nest copying the right half leftwards and a
      second one clearing columns w/2 .. w-1. */
  method CreateNewTexture(img: Image, w: nat, h: nat) returns (r: Image)
    requires IsImage(img, w, h)
    ensures IsImage(r, w, h)
    ensures forall y, x :: 0 <= y < h && 0 <= x < w ==>
              r[y][x] == (if x < w / 2 then img[y][x + w / 2] else Transparent)
  {
    var m := w / 2;
    r := Blank(w, h);
    var y := 0;
    while y < h
      invariant 0 <= y <= h
      invariant IsImage(r, w, h)
      invariant forall i, j :: 0 <= i < h && 0 <= j < w ==>
                  r[i][j] == (if i < y && j < m then img[i][j + m] else Transparent)
    {
      var x := 0;
      while x < m
        invariant 0 <= x <= m
        invariant IsImage(r, w, h)
        invariant forall i, j :: 0 <= i < h && 0 <= j < w ==>
                    r[i][j] == (if (i < y && j < m) || (i == y && j < x) then img[i][j + m] else Transparent)
      {
        r := r[y := r[y][x := img[y][x + m]]];
        x := x + 1;
      }
      y := y + 1;
    }
    y := 0;
    while y < h
      invariant 0 <= y <= h
      invariant IsImage(r, w, h)
      invariant forall i, j :: 0 <= i < h && 0 <= j < w ==>
                  r[i][j] == (if j < m then img[i][j + m] else Transparent)
    {
      var x := m;
      while x < w
        invariant m <= x <= w
        invariant IsImage(r, w, h)
        invariant forall i, j :: 0 <= i < h && 0 <= j < w ==>
                    r[i][j] == (if j < m then img[i][j + m] else Transparent)
      {
        r := r[y := r[y][x := Transparent]];
        x := x + 1;
      }
      y := y + 1;
    }
  }

  /** The loops compute the region reading. */
  lemma CreateNewTextureIsShift(img: Image, w: nat, h: nat, r: Image)
    requires IsImage(img, w, h) && IsImage(r, w, h)
    requires forall y, x :: 0 <= y < h && 0 <= x < w ==>
               r[y][x] == (if x < w / 2 then img[y][x + w / 2] else Transparent)
    ensures r == ShiftLeftHalf(img, w, h)
  {
    ShiftLeftHalfPointwise(img, w, h);
    PointwiseEqual(r, ShiftLeftHalf(img, w, h), w, h);
  }

  /** Applied to its own output, the shift clears everything: the second
      application moves the transparent half leftwards. */
  lemma {:induction false} ShiftTwiceIsBlank(img: Image, w: nat, h: nat)
    requires IsImage(img, w, h)
    ensures ShiftLeftHalf(ShiftLeftHalf(img, w, h), w, h) == Blank(w, h)
  {
    var once := ShiftLeftHalf(img, w, h);
    ShiftLeftHalfPointwise(img, w, h);
    ShiftLeftHalfPointwise(once, w, h);
    PointwiseEqual(ShiftLeftHalf(once, w, h), Blank(w, h), w, h);
  }

  /** For an even size, the client's mask is exactly the compositor's mask
      for a single neighbour on the left (offset (1, 0)) over a transparent
      buffer. */
  lemma {:induction false} EvenSizeMatchesRightExtension(img: Image, n: nat)
    requires IsSquare(img, n) && n % 2 == 0
    ensures ShiftLeftHalf(img, n, n) == FillIn(img, Blank(n, n), n, 1, 0)
  {
    ShiftLeftHalfPointwise(img, n, n);
    RightCopiesHighColumns(img, Blank(n, n), n);
    PointwiseEqual(ShiftLeftHalf(img, n, n), FillIn(img, Blank(n, n), n, 1, 0), n, n);
  }

  /** For an odd size the two masks differ only in the middle column n/2:
      the compositor copies the source's last column there, the client
      leaves it transparent and never reads the source's last column. */
  lemma {:induction false} OddSizeDiffersInMiddleColumn(img: Image, n: nat)
    requires IsSquare(img, n) && n % 2 == 1
    ensures forall y, x :: 0 <= y < n && 0 <= x < n && x != n / 2 ==>
              ShiftLeftHalf(img, n, n)[y][x] == FillIn(img, Blank(n, n), n, 1, 0)[y][x]
    ensures forall y :: 0 <= y < n ==>
              ShiftLeftHalf(img, n, n)[y][n / 2] == Transparent
              && FillIn(img, Blank(n, n), n, 1, 0)[y][n / 2] == img[y][n - 1]
  {
    ShiftLeftHalfPointwise(img, n, n);
    RightCopiesHighColumns(img, Blank(n, n), n);
  }

  /** For an odd width the output does not depend on the last column. */
  lemma {:induction false} OddWidthIgnoresLastColumn(a: Image, b: Image, w: nat, h: nat)
    requires IsImage(a, w, h) && IsImage(b, w, h) && w % 2 == 1
    requires forall y, x :: 0 <= y < h && 0 <= x < w - 1 ==> a[y][x] == b[y][x]
    ensures ShiftLeftHalf(a, w, h) == ShiftLeftHalf(b, w, h)
  {
    ShiftLeftHalfPointwise(a, w, h);
    ShiftLeftHalfPointwise(b, w, h);
    PointwiseEqual(ShiftLeftHalf(a, w, h), ShiftLeftHalf(b, w, h), w, h);
  }
}
