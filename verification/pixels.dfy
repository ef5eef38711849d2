/** Color32 pixels and images. A Unity pixel array stores row y at
    positions y * width .. y * width + width - 1, row 0 being the bottom row;
    here an image is the sequence of those rows, so `img[y][x]` is the pixel
    the source reads as `pixels[y * width + x]`. */
module Pixels {

  newtype byte = x: int | 0 <= x < 256

  /** Color32(r, g, b, a). */
  datatype Pixel = Pixel(r: byte, g: byte, b: byte, a: byte)

  /** `new Color32(0, 0, 0, 0)`, which is also the default value of a fresh
      Color32 array element. */
  const Transparent := Pixel(0, 0, 0, 0)

  type Image = seq<seq<Pixel>>

  /** `img` has `h` rows of `w` pixels each. */
  predicate IsImage(img: Image, w: nat, h: nat)
  {
    |img| == h && forall y :: 0 <= y < h ==> |img[y]| == w
  }

  /** A square n-by-n image, the only shape the map generator handles. */
  predicate IsSquare(img: Image, n: nat)
  {
    IsImage(img, n, n)
  }

  /** A w-by-h image whose every pixel is fully transparent. */
  function Blank(w: nat, h: nat): (img: Image)
    ensures IsImage(img, w, h)
    ensures forall y, x :: 0 <= y < h && 0 <= x < w ==> img[y][x] == Transparent
  {
    seq(h, _ => seq(w, _ => Transparent))
  }

  /** Two w-by-h images that agree on every pixel are equal. */
  lemma PointwiseEqual(a: Image, b: Image, w: nat, h: nat)
    requires IsImage(a, w, h) && IsImage(b, w, h)
    requires forall y, x :: 0 <= y < h && 0 <= x < w ==> a[y][x] == b[y][x]
    ensures a == b
  {
    forall y | 0 <= y < h
      ensures a[y] == b[y]
    {
    }
  }
}
