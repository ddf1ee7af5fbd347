# Colour palette generator: a Dafny model of the colour-analysis core

The repository is a small web application that takes an uploaded image and
reports its dominant colours. Its core, `app.py`, is a pipeline:

1. load the image as RGB;
2. `scale_image_if_needed`: rescale big images once, by the factor of the
   first threshold (400, 600, 800, 1200) that the width or the height reaches;
3. `reduce_bits_per_channel`: posterize every channel to 3 bits;
4. `get_top_15_colors`: count every pixel's colour in a `defaultdict`, sort
   the (colour, count) items by descending count and keep the first 15;
5. format the list by a code: `'hex'` gives `rrggbb` strings, `'cmyk'` gives
   CMYK tuples, any other code gives the raw colour triples;

plus `allowed_file`, the extension check the upload handler applies to file
names.

The model, one Dafny module per stage:

- `Pixels` (pixels.dfy): channels 0..255, `RGB`, an image as a sequence of
  rows, and the row-major scan `Flatten`.
- `Scaling` (scaling.dfy): the threshold table with exact rational factors
  and the first-match-wins loop, as a method proved against a recursive
  specification. Because the thresholds ascend, every image that is scaled
  at all is scaled by 0.2. The 600, 800 and 1200 rows can never be chosen,
  and this is proved.
- `Posterize` (posterize.dfy): each channel masked with `0xE0`.
- `Tally` (tally.dfy): the two nested counting loops as a method. The table
  is a `map<RGB, nat>` of counts plus the sequence of colours in insertion
  order, because Python dictionaries keep insertion order.
- `Ranking` (ranking.dfy): the stable descending sort and the `[:15]` slice.
  A declarative description of the result, `IsTopColors`, is proved to hold
  of the computed list, and is proved to determine it uniquely.
- `HexFormat` (hex.dfy): `'{:02x}{:02x}{:02x}'` and a parser that reads it
  back.
- `Cmyk` (cmyk.dfy): the RGB to CMYK formula over exact reals.
- `Analysis` (analysis.dfy): the format-code dispatch and the whole pipeline.
- `Upload` (upload.dfy): `allowed_file`.
- `Wrappers` (wrappers.dfy): `Option`.

Behaviour the code leaves implicit:

- The docstring of `analyze_image_colors` (app.py:103) says "top 10
  colors", but the code keeps 15 (app.py:63). The model keeps 15.
- Nothing in the code says how colours with equal counts are ordered.
  Python dictionaries iterate in insertion order and `sorted` is stable
  even with `reverse=True`, so colours with equal counts come out in order
  of first occurrence in the row-major scan. The model proves exactly that.
  The outer loop variable is called `column`, but it runs over rows.
- Posterizing is a call into the imaging library. The model assumes the
  library's documented behaviour of keeping the top 3 bits, i.e.
  `c & 0xE0`, giving the levels 0, 32, ..., 224.

## Model

| member | source | states |
|---|---|---|
| Pixels.Flatten | app.py:57-58 | the scan visits every pixel exactly once: its length is the pixel count of the grid |
| Pixels.FlattenAt | app.py:57-58 | the pixel at row i, column j is visited at position (pixels in rows above i) + j of the scan, so the scan is row-major |
| Pixels.InFlatten | app.py:57-58 | a colour is visited by the scan iff it sits at some row and column of the grid |
| Scaling.FirstMatch | app.py:30-33 | a row chosen from position i on lies at or after i in the table and its threshold is reached by the width or the height |
| Scaling.ChosenRow | app.py:30-33 | a chosen row indexes the factor table and its threshold is reached by the width or the height; FirstMatchIsFirst adds that no earlier row is |
| Scaling.ScaleImageIfNeeded | app.py:27-33 | the loop's chosen row is the first table row whose threshold the width or height reaches, or none; a factor is returned iff a row is chosen, and it is that row's factor |
| Scaling.FirstMatchIsFirst | app.py:30-33 | the chosen row applies and no earlier row applies; with no choice, no row applies |
| Scaling.NoScaleIffSmall | app.py:27-33 | no scaling happens iff width < 400 and height < 400 |
| Scaling.OnlyFirstFactorUsed | app.py:27-33 | whenever a factor is chosen it is row 0, factor 1/5; the 600/800/1200 rows are never chosen |
| Scaling.ScaleExamples | app.py:27-33 | a 500 x 100 image gets row 0 (factor 0.2); a 300 x 300 image is not scaled |
| Posterize.MaskIsRoundDown | app.py:36-38 | masking a channel with 0xE0 rounds it down to a multiple of 32 |
| Posterize.PosterizeChannel | app.py:36-38 | the posterized channel is a 3-bit level (multiple of 32 in 0..224), at most the channel and less than 32 below it |
| Posterize.PosterizePixel | app.py:38 | every channel of the posterized pixel is a 3-bit level, at most the input channel and less than 32 below it |
| Posterize.PosterizeImage | app.py:37-38 | the grid keeps its shape and every pixel is posterized channel by channel |
| Posterize.LevelIsFixed | app.py:36-38 | a channel is left unchanged iff it already is a 3-bit level |
| Posterize.PosterizeChannelIdempotent | app.py:36-38 | posterizing a channel twice equals posterizing it once |
| Posterize.PosterizePixelResult | app.py:36-38 | a posterized pixel has all channels on the levels, posterizing it again is a no-op, and a pixel is a fixed point iff it is on the levels |
| Posterize.PosterizeImageIdempotent | app.py:36-38 | posterizing an already posterized image is a no-op |
| Posterize.PosterizedImageLevels | app.py:36-38 | every colour in a posterized image is on the 3-bit levels |
| Posterize.RedExample | app.py:36-38 | (255, 0, 0) posterizes to (224, 0, 0) |
| Tally.FirstSeen | app.py:55-59 | the insertion-order sequence holds exactly the colours of the scan, each once |
| Tally.TallyStep | app.py:59 | one increment of the defaultdict keeps the counts, the key set and the insertion order equal to those of the scan extended by one pixel |
| Tally.TallyColors | app.py:55-59 | after the loops, the table's keys are exactly the colours of the image, each count is that colour's number of occurrences, and the insertion order is the order of first occurrence |
| Tally.CountPresent | app.py:59 | a colour that occurs in the scan has a positive count |
| Tally.FirstSeenInScanOrder | app.py:55-59 | colours earlier in insertion order first occur earlier in the row-major scan |
| Tally.DistinctCount | app.py:55-59 | the number of dictionary entries equals the number of distinct colours of the image |
| Tally.CountsAddUp | app.py:55-59 | summed over the distinct colours, the counts equal the number of pixels: every pixel is counted exactly once |
| Tally.TallyTotal | app.py:55-59 | the counts in the table built from an image add up to its pixel count |
| Ranking.InsertByCount | app.py:61 | inserting one colour into a list adds exactly that colour (multiset) |
| Ranking.SortByCount | app.py:61 | the sorted list is a permutation of the dictionary's colours |
| Ranking.CountTable | app.py:55-59 | the table's keys are exactly the colours of the scan |
| Ranking.RankedCons | app.py:61 | a colour that ranks before every entry of a ranked list can be put in front of it |
| Ranking.RankedTail | app.py:61 | dropping the head of a ranked list leaves it ranked, and the head ranks before every remaining entry |
| Ranking.InsertRanked | app.py:61 | inserting a colour that first occurs before all others keeps the list in descending count, ties by first occurrence |
| Ranking.SortRanked | app.py:61 | sorting colours given in first-occurrence order yields descending counts with ties in first-occurrence order (stability) |
| Ranking.RankedScan | app.py:55-61 | the sorted items contain each colour of the image once, as many as there are distinct colours, in ranked order |
| Ranking.RankedPrefix | app.py:63 | cutting the ranked list after 15 keeps its order and leaves out only colours ranked after the last one kept |
| Ranking.TopColors | app.py:55-63 | no contract of its own; TopColorsSpec states that it satisfies IsTopColors and GetTop15Colors that the loops compute it |
| Ranking.TopColorsSpec | app.py:46-64 | the result has min(15, distinct colours) entries, no duplicates, only colours of the image, non-increasing counts, ties in first-occurrence order, and every colour left out ranks after the last entry |
| Ranking.GetTop15Colors | app.py:46-64 | the method (loops, sort, slice) returns the specified top list and it has every property of TopColorsSpec |
| Ranking.SelectionLeads | app.py:61-63 | in such a list, each entry ranks before every colour that is not among the entries up to it |
| Ranking.SelectionPrefixUnique | app.py:61-63 | two lists meeting the promise agree entry by entry |
| Ranking.TopColorsUnique | app.py:61-63 | any list with the promised length and order is exactly the result, so the output is reproducible |
| Ranking.UniformImage | app.py:55-63 | a non-empty single-colour image yields exactly that colour, counted once per pixel |
| HexFormat.HexDigit | app.py:74 | a digit below 16 prints as one lower-case hex character, a decimal digit iff it is below 10 |
| HexFormat.ChannelToHex | app.py:74 | a channel prints as exactly two hex digits (zero-padded) |
| HexFormat.RgbToHex | app.py:74 | a colour prints as exactly 6 lower-case hex characters |
| HexFormat.ParseHexDigit | app.py:74 | a character is accepted iff it is a lower-case hex digit, and the value printed back gives the character |
| HexFormat.ParseChannel | app.py:74 | two characters parse iff both are hex digits |
| HexFormat.ParseHex | app.py:74 | a string parses iff it is 6 lower-case hex digits |
| HexFormat.ChannelRoundTrip | app.py:74 | parsing a channel's two digits gives the channel back |
| HexFormat.HexRoundTrip | app.py:74 | parsing each 2-character pair of the hex string recovers the colour |
| HexFormat.ParseChannelInverse | app.py:74 | two accepted digits are exactly how their value prints |
| HexFormat.ParseHexInverse | app.py:74 | every accepted string is exactly how its colour prints |
| HexFormat.RgbToHexInjective | app.py:74 | two colours print alike iff they are equal |
| HexFormat.HexExamples | app.py:74 | (0,0,0) prints "000000", (224,0,0) prints "e00000", (255,16,9) prints "ff1009" |
| Cmyk.Max3 | app.py:85 | the maximum is one of the three and at least each of them |
| Cmyk.Unit | app.py:84 | a channel divided by 255 lies in [0, 1] |
| Cmyk.RgbToCmyk | app.py:84-94 | all four components lie in [0, 1] |
| Cmyk.UnitsToCmyk | app.py:85-93 | for normalised channels, all four components lie in [0, 1] |
| Cmyk.Ratio | app.py:87-89 | a component (1 - x - K) / (1 - K) lies in [0, 1] and times (1 - K) gives back the numerator |
| Cmyk.ChannelBack | app.py:87-89 | (1 - C) * (1 - K) recovers the normalised channel |
| Cmyk.UnitsRoundTrip | app.py:85-93 | converting back with (1 - C)(1 - K), (1 - M)(1 - K), (1 - Y)(1 - K) gives the normalised channels |
| Cmyk.CmykRoundTrip | app.py:84-94 | before rounding, the conversion loses nothing: converting back gives r/255, g/255, b/255 |
| Cmyk.BrightestChannelIsZero | app.py:85-89 | the component of the brightest channel is 0 |
| Cmyk.CmykExamples | app.py:84-94 | black gives (0,0,0,1), white gives (0,0,0,0), red gives (0,1,1,0) |
| Analysis.FormatColors | app.py:110-115 | the output has one entry per ranked colour; "hex" maps rgb_to_hex over the list, "cmyk" maps rgb_to_cmyk, any other code returns the list unchanged |
| Analysis.ParseAll | app.py:111 | a parsed list has one colour per string, each parsed from its string |
| Analysis.ParseAllDefined | app.py:111 | a list of strings that each parse to a colour parses to the list of those colours |
| Analysis.FormatRoundTrip | app.py:110-115 | for every code except "cmyk" the ranked colours can be read back from the output unchanged |
| Analysis.Scaled | app.py:106 | no contract of its own; AnalyzeImageColors states that the method's rescale gives it and ScaleImageIfNeeded which factor it applies |
| Analysis.PipelineColors | app.py:105-109 | no contract of its own; PipelineColorsPosterized states that it has at most 15 colours, all on the 3-bit levels |
| Analysis.AnalyzeImageColors | app.py:96-115 | for a rectangular grid, as a decoded image always is, the pipeline returns the formatted top colours of the posterized, possibly rescaled image, at most 15 of them |
| Analysis.PipelineColorsPosterized | app.py:105-109 | the pipeline reports at most 15 colours, each on the 3-bit levels |
| Analysis.SolidRedScenario | app.py:105-111 | a 300 x 300 solid red image is not scaled, becomes one bucket (224,0,0) of 90000 pixels, and is reported as ["e00000"] |
| Upload.LowerChar | app.py:118 | upper-case ASCII letters map to their lower-case letter, every other character is unchanged |
| Upload.Lower | app.py:118 | lower-casing keeps the length and lower-cases character by character |
| Upload.LastDot | app.py:118 | the split point is absent iff the name has no '.', and otherwise is a '.' with no '.' after it |
| Upload.AllowedFile | app.py:117-118 | no contract of its own; AllowedFileIff states it |
| Upload.AllowedFileIff | app.py:117-118 | a name is allowed iff it contains '.' and the lower-cased text after its last '.' is png, jpg, jpeg or gif |
| Upload.AllowedSplit | app.py:117-118 | for an extension without '.', whatever precedes the last '.' is irrelevant: the name is allowed iff the lower-cased extension is |
| Upload.LowerExamples | app.py:118 | "PNG" lower-cases to "png" and "JpEg" to "jpeg"; lower-case text is unchanged |
| Upload.AcceptedExamples | app.py:117-118 | any name ending in ".png", ".PNG" or ".JpEg" is allowed |
| Upload.LastDotExamples | app.py:117-118 | any name ending in ".gif" is allowed (so "a.tar.gif" and ".gif"); names ending in ".exe" (so "a.jpg.exe") or in "." are not, and neither is "png" |

## Left out

- Loading (`open_and_convert_to_rgb`, app.py:8-17): decoding goes through an external image codec. The model starts from a grid of RGB pixels. A file that cannot be decoded (the load error) is therefore not modelled.
- Resampling (`ImageOps.scale`, app.py:32): library code working with float factors. The model decides which factor is chosen and passes the image to a `resample` parameter. Nothing is stated about the grid that comes back, so the size of the rescaled grid (500 x 100 would become 100 x 20) is not modelled.
- `convert_to_numpy_array` (app.py:42-44): a library conversion. The grid of rows is used directly. A numpy array of a decoded image is rectangular. `AnalyzeImageColors` requires `Rectangular` for that reason, and its width is read from the first row.
- Cmyk.RgbToCmyk: computed over exact reals. The source computes with floats and rounds each component with `round(x, 2)`. Neither the float error nor the rounding is modelled, so the round-trip lemmas hold only before rounding.
- Upload.Lower: lower-cases ASCII letters only. Python's `str.lower` is Unicode-aware. No non-ASCII character lower-cases to a single character of "png", "jpg", "jpeg" or "gif", so the result of the extension check is the same.
- Posterize.PosterizeChannel: the library's posterize is assumed to keep the top 3 bits (a 0xE0 mask). This is the library's documented behaviour, not derived from its code.
- Flask routing, request handling, saving the upload, `secure_filename`, templates, `app.run` and the upload folder setting (app.py:120-148): web and I/O glue.
