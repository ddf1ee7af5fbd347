/**
 * `reduce_bits_per_channel` calls the imaging library's posterize with 3 bits.
 * The library keeps the top 3 bits of each channel, i.e. masks it with 0xE0;
 * that library semantics is assumed here, not derived.
 */
module Posterize {
  import opened Pixels

  /** The levels a 3-bit channel can take: 0, 32, ..., 224. */
  predicate IsLevel(c: int)
  {
    0 <= c <= 224 && c % 32 == 0
  }

  /** Channel & 0xE0: the largest multiple of 32 not above the channel. */
  function PosterizeChannel(c: Channel): (p: Channel)
    ensures IsLevel(p)
    ensures p <= c < p + 32
  {
    MaskIsRoundDown(c);
    ((c as bv8) & 0xE0) as int
  }

  /** Clearing the low 5 bits rounds down to a multiple of 32. */
  lemma MaskIsRoundDown(c: Channel)
    ensures ((c as bv8) & 0xE0) as int == c / 32 * 32
  {
  }

  /** One pixel: every channel goes down to its level. */
  function PosterizePixel(px: RGB): (q: RGB)
    ensures IsPosterized(q)
    ensures q.r <= px.r < q.r + 32 && q.g <= px.g < q.g + 32 && q.b <= px.b < q.b + 32
  {
    RGB(PosterizeChannel(px.r), PosterizeChannel(px.g), PosterizeChannel(px.b))
  }

  predicate IsPosterized(px: RGB)
  {
    IsLevel(px.r) && IsLevel(px.g) && IsLevel(px.b)
  }

  /** The whole image, pixel by pixel; the grid keeps its shape. */
  function PosterizeImage(img: Image): (q: Image)
    ensures |q| == |img|
    ensures forall i :: 0 <= i < |img| ==> |q[i]| == |img[i]|
    ensures forall i, j :: 0 <= i < |img| && 0 <= j < |img[i]| ==> q[i][j] == PosterizePixel(img[i][j])
  {
    seq(|img|, i requires 0 <= i < |img| => seq(|img[i]|, j requires 0 <= j < |img[i]| => PosterizePixel(img[i][j])))
  }

  /** A level is left alone, and so posterizing twice is posterizing once. */
  lemma LevelIsFixed(c: Channel)
    ensures IsLevel(c) <==> PosterizeChannel(c) == c
  {
  }

  lemma PosterizeChannelIdempotent(c: Channel)
    ensures PosterizeChannel(PosterizeChannel(c)) == PosterizeChannel(c)
  {
  }

  lemma PosterizePixelResult(px: RGB)
    ensures IsPosterized(PosterizePixel(px))
    ensures PosterizePixel(PosterizePixel(px)) == PosterizePixel(px)
    ensures IsPosterized(px) <==> PosterizePixel(px) == px
  {
    LevelIsFixed(px.r);
    LevelIsFixed(px.g);
    LevelIsFixed(px.b);
    PosterizeChannelIdempotent(px.r);
    PosterizeChannelIdempotent(px.g);
    PosterizeChannelIdempotent(px.b);
  }

  /** Quantizing an already quantized image is a no-op. */
  lemma PosterizeImageIdempotent(img: Image)
    ensures PosterizeImage(PosterizeImage(img)) == PosterizeImage(img)
  {
    var q := PosterizeImage(img);
    var qq := PosterizeImage(q);
    forall i | 0 <= i < |img| ensures qq[i] == q[i] {
      forall j | 0 <= j < |q[i]| ensures qq[i][j] == q[i][j] {
        PosterizePixelResult(img[i][j]);
      }
    }
  }

  /** Every pixel of a posterized image is on the 3-bit levels. */
  lemma PosterizedImageLevels(img: Image, c: RGB)
    requires c in Flatten(PosterizeImage(img))
    ensures IsPosterized(c)
  {
    InFlatten(PosterizeImage(img), c);
  }

  /** Pure red becomes (224, 0, 0). */
  lemma RedExample()
    ensures PosterizePixel(RGB(255, 0, 0)) == RGB(224, 0, 0)
  {
  }
}
