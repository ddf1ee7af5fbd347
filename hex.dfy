/**
 * `rgb_to_hex`: the format '{:02x}{:02x}{:02x}', i.e. each channel as two
 * lower-case hexadecimal digits, zero-padded, concatenated as r, g, b.
 * A parser of such strings is the partner that shows nothing is lost.
 */
module HexFormat {
  import opened Pixels
  import opened Wrappers

  /** The characters '{:x}' prints: 0-9 and lower-case a-f. */
  predicate IsHexDigit(ch: char)
  {
    '0' <= ch <= '9' || 'a' <= ch <= 'f'
  }

  /** One lower-case hexadecimal digit. */
  function HexDigit(n: nat): (ch: char)
    requires n < 16
    ensures IsHexDigit(ch)
    ensures n < 10 <==> ch <= '9'
  {
    if n < 10 then ('0' as int + n) as char else ('a' as int + n - 10) as char
  }

  /** '{:02x}' of one channel: high digit, then low digit. */
  function ChannelToHex(c: Channel): (s: string)
    ensures |s| == 2 && IsHexDigit(s[0]) && IsHexDigit(s[1])
  {
    [HexDigit(c / 16), HexDigit(c % 16)]
  }

  /** The colour as a 6-character lower-case hex string. */
  function RgbToHex(px: RGB): (s: string)
    ensures |s| == 6
    ensures forall i :: 0 <= i < |s| ==> IsHexDigit(s[i])
  {
    ChannelToHex(px.r) + ChannelToHex(px.g) + ChannelToHex(px.b)
  }

  /** The value of a lower-case hexadecimal digit; upper case is not produced, so not accepted. */
  function ParseHexDigit(ch: char): (d: Option<nat>)
    ensures d.Some? <==> IsHexDigit(ch)
    ensures d.Some? ==> d.value < 16 && HexDigit(d.value) == ch
  {
    if '0' <= ch <= '9' then Some(ch as int - '0' as int)
    else if 'a' <= ch <= 'f' then Some(ch as int - 'a' as int + 10)
    else None
  }

  /** Two hex digits, high first. */
  function ParseChannel(hi: char, lo: char): (c: Option<Channel>)
    ensures c.Some? <==> IsHexDigit(hi) && IsHexDigit(lo)
  {
    match (ParseHexDigit(hi), ParseHexDigit(lo))
    case (Some(h), Some(l)) => Some(h * 16 + l)
    case _ => None
  }

  /** Reads back a 6-character hex colour. */
  function ParseHex(s: string): (px: Option<RGB>)
    ensures px.Some? <==> |s| == 6 && forall i :: 0 <= i < |s| ==> IsHexDigit(s[i])
  {
    if |s| != 6 then None
    else
      match (ParseChannel(s[0], s[1]), ParseChannel(s[2], s[3]), ParseChannel(s[4], s[5]))
      case (Some(r), Some(g), Some(b)) => Some(RGB(r, g, b))
      case _ => None
  }

  lemma ChannelRoundTrip(c: Channel)
    ensures ParseChannel(ChannelToHex(c)[0], ChannelToHex(c)[1]) == Some(c)
  {
    var s := ChannelToHex(c);
    assert ParseHexDigit(s[0]) == Some(c / 16);
    assert ParseHexDigit(s[1]) == Some(c % 16);
  }

  /** Parsing each 2-character pair of the hex string recovers the channels. */
  lemma HexRoundTrip(px: RGB)
    ensures ParseHex(RgbToHex(px)) == Some(px)
  {
    var s := RgbToHex(px);
    ChannelRoundTrip(px.r);
    ChannelRoundTrip(px.g);
    ChannelRoundTrip(px.b);
    assert s[0..2] == ChannelToHex(px.r);
    assert s[2..4] == ChannelToHex(px.g);
    assert s[4..6] == ChannelToHex(px.b);
  }

  lemma ParseChannelInverse(hi: char, lo: char)
    requires ParseChannel(hi, lo).Some?
    ensures ChannelToHex(ParseChannel(hi, lo).value) == [hi, lo]
  {
    var h := ParseHexDigit(hi).value;
    var l := ParseHexDigit(lo).value;
    var c := h * 16 + l;
    assert c / 16 == h && c % 16 == l;
  }

  /** The other direction: every string the parser accepts is what `rgb_to_hex` prints. */
  lemma ParseHexInverse(s: string)
    requires ParseHex(s).Some?
    ensures RgbToHex(ParseHex(s).value) == s
  {
    ParseChannelInverse(s[0], s[1]);
    ParseChannelInverse(s[2], s[3]);
    ParseChannelInverse(s[4], s[5]);
  }

  /** Distinct colours get distinct hex strings. */
  lemma RgbToHexInjective(a: RGB, b: RGB)
    ensures RgbToHex(a) == RgbToHex(b) <==> a == b
  {
    HexRoundTrip(a);
    HexRoundTrip(b);
  }

  lemma HexExamples()
    ensures RgbToHex(RGB(0, 0, 0)) == "000000"
    ensures RgbToHex(RGB(224, 0, 0)) == "e00000"
    ensures RgbToHex(RGB(255, 16, 9)) == "ff1009"
  {
  }
}
