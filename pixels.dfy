/**
 * Pixels and images as the pipeline sees them after loading: every pixel is
 * an (R, G, B) triple of 8-bit unsigned channels, and an image is a grid of
 * rows of pixels (the first index of the numpy array is the row).
 */
module Pixels {

  /** One 8-bit unsigned channel value. */
  type Channel = c: int | 0 <= c <= 255

  /** One pixel; the Python code turns each pixel into the tuple (r, g, b). */
  datatype RGB = RGB(r: Channel, g: Channel, b: Channel)

  /** A grid of rows; `Rectangular` says when all rows are equally long. */
  type Image = seq<seq<RGB>>

  /** Every row is as long as the first, as in a numpy array of a decoded image. */
  predicate Rectangular(img: Image)
  {
    forall i :: 0 <= i < |img| ==> |img[i]| == |img[0]|
  }

  /** The pixels of an image in row-major scan order. */
  function Flatten(img: Image): (s: seq<RGB>)
    ensures |s| == PixelCount(img)
  {
    if img == [] then [] else Flatten(img[..|img| - 1]) + img[|img| - 1]
  }

  /** The number of pixels in an image, summed row by row. */
  function PixelCount(img: Image): nat
  {
    if img == [] then 0 else PixelCount(img[..|img| - 1]) + |img[|img| - 1]|
  }

  /** Every pixel of row `i` appears in the flattened scan, after the rows above it. */
  lemma {:induction false} FlattenAt(img: Image, i: nat, j: nat)
    requires i < |img| && j < |img[i]|
    ensures PixelCount(img[..i]) + j < |Flatten(img)|
    ensures Flatten(img)[PixelCount(img[..i]) + j] == img[i][j]
  {
    var n := |img|;
    if i == n - 1 {
      assert img[..n - 1] == img[..i];
    } else {
      var init := img[..n - 1];
      assert init[..i] == img[..i];
      FlattenAt(init, i, j);
    }
  }

  /** A colour occurs in the scan exactly when it sits at some row and column. */
  lemma {:induction false} InFlatten(img: Image, c: RGB)
    ensures c in Flatten(img) <==> exists i, j :: 0 <= i < |img| && 0 <= j < |img[i]| && img[i][j] == c
  {
    if img != [] {
      var n := |img|;
      var init := img[..n - 1];
      InFlatten(init, c);
      assert Flatten(img) == Flatten(init) + img[n - 1];
      if c in Flatten(img) {
        if c in Flatten(init) {
          var i, j :| 0 <= i < |init| && 0 <= j < |init[i]| && init[i][j] == c;
          assert img[i][j] == c;
        } else {
          var j :| 0 <= j < |img[n - 1]| && img[n - 1][j] == c;
          assert img[n - 1][j] == c;
        }
      } else {
        forall i, j | 0 <= i < |img| && 0 <= j < |img[i]| ensures img[i][j] != c {
          if i < n - 1 {
            assert init[i][j] == img[i][j];
          } else {
            assert img[i][j] in img[n - 1];
          }
        }
      }
    }
  }

  /** A grid whose rows all hold `w` pixels has height * w pixels. */
  lemma {:induction false} RectanglePixelCount(img: Image, w: nat)
    requires forall i :: 0 <= i < |img| ==> |img[i]| == w
    ensures PixelCount(img) == |img| * w
  {
    if img != [] {
      RectanglePixelCount(img[..|img| - 1], w);
    }
  }
}
