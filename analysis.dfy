/**
 * `analyze_image_colors`: load, scale if needed, posterize to 3 bits, rank the
 * 15 most frequent colours, and format them by the requested code: "hex" for
 * hex strings, "cmyk" for CMYK tuples, anything else for the raw colours.
 * An unknown code is not an error; it selects the raw colours.
 */
module Analysis {
  import opened Pixels
  import opened Scaling
  import opened Posterize
  import opened Tally
  import opened Ranking
  import opened HexFormat
  import opened Cmyk
  import opened Wrappers

  /** The list returned to the caller, one variant per output type. */
  datatype Palette =
    | HexPalette(hex: seq<string>)
    | CmykPalette(cmyk: seq<Cmyk>)
    | RgbPalette(rgb: seq<RGB>)

  function Size(p: Palette): nat
  {
    match p
    case HexPalette(h) => |h|
    case CmykPalette(k) => |k|
    case RgbPalette(c) => |c|
  }

  /** The format-code dispatch at the end of `analyze_image_colors`. */
  function FormatColors(colors: seq<RGB>, code: string): (p: Palette)
    ensures Size(p) == |colors|
    ensures code == "hex" ==> p.HexPalette? && forall i :: 0 <= i < |colors| ==> p.hex[i] == RgbToHex(colors[i])
    ensures code == "cmyk" ==> p.CmykPalette? && forall i :: 0 <= i < |colors| ==> p.cmyk[i] == RgbToCmyk(colors[i])
    ensures code != "hex" && code != "cmyk" ==> p == RgbPalette(colors)
  {
    if code == "hex" then HexPalette(seq(|colors|, i requires 0 <= i < |colors| => RgbToHex(colors[i])))
    else if code == "cmyk" then CmykPalette(seq(|colors|, i requires 0 <= i < |colors| => RgbToCmyk(colors[i])))
    else RgbPalette(colors)
  }

  /** Reads the colours back out of a hex or raw palette. */
  function ParsePalette(p: Palette): Option<seq<RGB>>
  {
    match p
    case HexPalette(h) => ParseAll(h)
    case CmykPalette(_) => None
    case RgbPalette(c) => Some(c)
  }

  function ParseAll(h: seq<string>): (r: Option<seq<RGB>>)
    ensures r.Some? ==> |r.value| == |h| && forall i :: 0 <= i < |h| ==> ParseHex(h[i]) == Some(r.value[i])
  {
    if h == [] then Some([])
    else
      match (ParseHex(h[0]), ParseAll(h[1..]))
      case (Some(c), Some(cs)) => Some([c] + cs)
      case _ => None
  }

  /** Parsing every entry of a list of hex strings that all parse succeeds. */
  lemma {:induction false} ParseAllDefined(h: seq<string>, colors: seq<RGB>)
    requires |h| == |colors|
    requires forall i :: 0 <= i < |h| ==> ParseHex(h[i]) == Some(colors[i])
    ensures ParseAll(h) == Some(colors)
  {
    if h != [] {
      ParseAllDefined(h[1..], colors[1..]);
      var head := ParseHex(h[0]);
      assert head == Some(colors[0]);
      assert ParseAll(h) == Some([colors[0]] + colors[1..]);
      assert [colors[0]] + colors[1..] == colors;
    }
  }

  /** The hex and raw formats lose nothing: the ranked colours can be read back. */
  lemma FormatRoundTrip(colors: seq<RGB>, code: string)
    requires code != "cmyk"
    ensures ParsePalette(FormatColors(colors, code)) == Some(colors)
  {
    var p := FormatColors(colors, code);
    if code == "hex" {
      forall i | 0 <= i < |colors| ensures ParseHex(p.hex[i]) == Some(colors[i]) {
        HexRoundTrip(colors[i]);
      }
      ParseAllDefined(p.hex, colors);
    }
  }

  /**
   * The image after `scale_image_if_needed`: the resampling itself is the
   * imaging library's and is a parameter here; width is the length of a row
   * and height the number of rows.
   */
  function Width(img: Image): nat
  {
    if img == [] then 0 else |img[0]|
  }

  function Scaled(img: Image, resample: (Image, Factor) -> Image): Image
  {
    match ChosenRow(Width(img), |img|)
    case None => img
    case Some(i) => resample(img, Factors[i])
  }

  /** The ranked colours of the pipeline, before formatting. */
  function PipelineColors(img: Image, resample: (Image, Factor) -> Image): seq<RGB>
  {
    TopColors(PosterizeImage(Scaled(img, resample)))
  }

  /**
   * `analyze_image_colors` on an image already loaded as RGB; `resample`
   * stands for the library's rescaling by a factor.
   */
  method AnalyzeImageColors(img: Image, code: string, resample: (Image, Factor) -> Image) returns (p: Palette)
    requires Rectangular(img)
    ensures p == FormatColors(PipelineColors(img, resample), code)
    ensures Size(p) <= TopK
  {
    var current := img;
    var row, factor := ScaleImageIfNeeded(Width(img), |img|);
    if factor.Some? {
      current := resample(img, factor.value);
    }
    current := PosterizeImage(current);
    var top := GetTop15Colors(current);
    p := FormatColors(top, code);
  }

  /** Every reported colour is one of the 3-bit levels and at most 15 are reported. */
  lemma PipelineColorsPosterized(img: Image, resample: (Image, Factor) -> Image)
    ensures |PipelineColors(img, resample)| <= TopK
    ensures forall c :: c in PipelineColors(img, resample) ==> IsPosterized(c)
  {
    var q := PosterizeImage(Scaled(img, resample));
    TopColorsSpec(q);
    forall c | c in PipelineColors(img, resample) ensures IsPosterized(c) {
      PosterizedImageLevels(Scaled(img, resample), c);
    }
  }

  /** A width x height image filled with one colour. */
  function SolidImage(width: nat, height: nat, c: RGB): (img: Image)
    ensures |img| == height && Width(img) == (if height == 0 then 0 else width)
  {
    seq(height, _ => seq(width, _ => c))
  }

  /**
   * A 300 x 300 solid red image is not scaled, becomes (224, 0, 0), is one
   * bucket of 90000 pixels, and is reported as ["e00000"].
   */
  lemma SolidRedScenario(resample: (Image, Factor) -> Image)
    ensures var img := SolidImage(300, 300, RGB(255, 0, 0));
      && Scaled(img, resample) == img
      && PipelineColors(img, resample) == [RGB(224, 0, 0)]
      && Count(Flatten(PosterizeImage(img)), RGB(224, 0, 0)) == 90000
      && FormatColors(PipelineColors(img, resample), "hex") == HexPalette(["e00000"])
  {
    var red, dark := RGB(255, 0, 0), RGB(224, 0, 0);
    var img := SolidImage(300, 300, red);
    NoScaleIffSmall(300, 300);
    var q := PosterizeImage(img);
    RedExample();
    RectanglePixelCount(q, 300);
    UniformImage(q, dark);
    HexExamples();
  }
}
