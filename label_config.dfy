/**
 * Building the labeling configuration for a single-animal project: one
 * `<Label>` per body part, each with a display colour written as `#rrggbb`.
 * The palette is an input (its colours are float RGB triples in [0, 1]).
 */
module LabelConfig {

  /** An RGB colour with integer channels, not necessarily in range. */
  datatype Rgb = Rgb(r: int, g: int, b: int)

  /** An RGB colour with float channels, as a palette gives it. */
  datatype FloatRgb = FloatRgb(r: real, g: real, b: real)

  predicate ChannelInRange(c: int) {
    0 <= c <= 255
  }

  predicate InRange(color: Rgb) {
    ChannelInRange(color.r) && ChannelInRange(color.g) && ChannelInRange(color.b)
  }

  /** `int(max(0, min(c, 255)))`. */
  function ClampChannel(c: int): (r: int)
    ensures ChannelInRange(r)
    ensures ChannelInRange(c) ==> r == c
    ensures c < 0 ==> r == 0
    ensures c > 255 ==> r == 255
  {
    if c < 0 then 0 else if c > 255 then 255 else c
  }

  /** `clamp_rgb`: every channel forced into [0, 255]. */
  function ClampRgb(color: Rgb): (r: Rgb)
    ensures InRange(r)
    ensures InRange(color) ==> r == color
  {
    Rgb(ClampChannel(color.r), ClampChannel(color.g), ClampChannel(color.b))
  }

  lemma ClampRgbIdempotent(color: Rgb)
    ensures ClampRgb(ClampRgb(color)) == ClampRgb(color)
  {
  }

  predicate IsLowerHexDigit(c: char) {
    '0' <= c <= '9' || 'a' <= c <= 'f'
  }

  function HexDigit(d: int): char
    requires 0 <= d < 16
  {
    "0123456789abcdef"[d]
  }

  function HexDigitValue(c: char): int {
    if '0' <= c <= '9' then c as int - '0' as int else c as int - 'a' as int + 10
  }

  /** `f'{n:02x}'` for a channel in range: two lowercase hex digits, high one first. */
  function HexByte(n: int): (s: string)
    requires ChannelInRange(n)
    ensures |s| == 2 && IsLowerHexDigit(s[0]) && IsLowerHexDigit(s[1])
  {
    [HexDigit(n / 16), HexDigit(n % 16)]
  }

  /** `rgb_to_hex`: `#` and two hex digits per clamped channel, in r, g, b order. */
  function RgbToHex(color: Rgb): (s: string)
    ensures |s| == 7 && s[0] == '#'
    ensures forall i :: 1 <= i < 7 ==> IsLowerHexDigit(s[i])
  {
    var c := ClampRgb(color);
    "#" + HexByte(c.r) + HexByte(c.g) + HexByte(c.b)
  }

  /** Reading `#rrggbb` back into its three channels. */
  function DecodeHex(s: string): Rgb
    requires |s| == 7
  {
    Rgb(HexDigitValue(s[1]) * 16 + HexDigitValue(s[2]),
        HexDigitValue(s[3]) * 16 + HexDigitValue(s[4]),
        HexDigitValue(s[5]) * 16 + HexDigitValue(s[6]))
  }

  lemma HexByteRoundTrip(n: int)
    requires ChannelInRange(n)
    ensures HexDigitValue(HexByte(n)[0]) * 16 + HexDigitValue(HexByte(n)[1]) == n
  {
    var hi, lo := n / 16, n % 16;
    assert HexDigitValue(HexDigit(hi)) == hi by {
      assert "0123456789abcdef"[hi] as int == if hi < 10 then '0' as int + hi else 'a' as int + hi - 10;
    }
    assert HexDigitValue(HexDigit(lo)) == lo by {
      assert "0123456789abcdef"[lo] as int == if lo < 10 then '0' as int + lo else 'a' as int + lo - 10;
    }
  }

  /** Decoding the digit pairs of `rgb_to_hex(c)` gives the clamped colour. */
  lemma RgbToHexRoundTrip(color: Rgb)
    ensures DecodeHex(RgbToHex(color)) == ClampRgb(color)
  {
    var c := ClampRgb(color);
    HexByteRoundTrip(c.r);
    HexByteRoundTrip(c.g);
    HexByteRoundTrip(c.b);
  }

  /** On in-range colours the encoding is injective. */
  lemma RgbToHexInjective(a: Rgb, b: Rgb)
    requires InRange(a) && InRange(b)
    requires RgbToHex(a) == RgbToHex(b)
    ensures a == b
  {
    RgbToHexRoundTrip(a);
    RgbToHexRoundTrip(b);
  }

  /** Out-of-range channels are clamped before encoding: 300 gives "ff", -5 gives "00". */
  lemma RgbToHexClampsChannels()
    ensures RgbToHex(Rgb(300, -5, 128)) == "#ff0080"
  {
    assert HexByte(255) == "ff";
    assert HexByte(0) == "00";
    assert HexByte(128) == "80";
  }

  /** Python's `int(x)` on a float: truncation toward zero. */
  function TruncateToInt(x: real): (n: int)
    ensures x >= 0.0 ==> n as real <= x < n as real + 1.0
    ensures x < 0.0 ==> n as real - 1.0 < x <= n as real
  {
    if x >= 0.0 then x.Floor else -((-x).Floor)
  }

  /** `float_rgb_to_int_rgb`: each channel becomes `int(c * 255)`. */
  function FloatRgbToIntRgb(color: FloatRgb): Rgb {
    Rgb(TruncateToInt(color.r * 255.0), TruncateToInt(color.g * 255.0), TruncateToInt(color.b * 255.0))
  }

  const Header: string :=
    "<View style=\"display: flex;\">\n"
    + "    <View style=\"flex: 90%\">\n"
    + "        <Image name=\"image\" value=\"$image\" width=\"750px\" maxWidth=\"1000px\" zoom=\"true\" zoomControl=\"true\" brightnessControl=\"true\" contrastControl=\"true\" />\n"
    + "    </View>\n"
    + "    <View style=\"flex: 10%; margin-left: 1em\">\n"
    + "        <Header value=\"Keypoints\" />\n"
    + "        <KeyPointLabels name=\"keypoint-label\" toName=\"image\" strokewidth=\"2\" opacity=\"1\" >\n"

  const Footer: string :=
    "        </KeyPointLabels>\n"
    + "    </View>\n"
    + "</View>\n"

  const LabelIndent: string := "            "

  /** One label element: twelve spaces of indent and no line break after it. */
  function LabelLine(bodypart: string, hex: string): string {
    LabelIndent + "<Label value=\"" + bodypart + "\" background=\"" + hex + "\"/>"
  }

  function Min(a: int, b: int): int {
    if a < b then a else b
  }

  /** `zip(bodyparts, colors)` turned into label elements, in body part order. */
  function LabelLines(bodyparts: seq<string>, colors: seq<FloatRgb>): seq<string> {
    seq(Min(|bodyparts|, |colors|), i requires 0 <= i < Min(|bodyparts|, |colors|) =>
      LabelLine(bodyparts[i], RgbToHex(FloatRgbToIntRgb(colors[i]))))
  }

  lemma LabelLineAt(bodyparts: seq<string>, colors: seq<FloatRgb>, i: nat)
    requires i < Min(|bodyparts|, |colors|)
    ensures LabelLines(bodyparts, colors)[i] == LabelLine(bodyparts[i], RgbToHex(FloatRgbToIntRgb(colors[i])))
  {
  }

  lemma ExtendPrefix(h: string, lines: seq<string>, i: nat)
    requires i < |lines|
    ensures h + Concat(lines[..i]) + lines[i] == h + Concat(lines[..i + 1])
  {
    assert lines[..i + 1][..i] == lines[..i];
  }

  function Concat(lines: seq<string>): string {
    if lines == [] then "" else Concat(lines[..|lines| - 1]) + lines[|lines| - 1]
  }

  lemma {:induction false} ConcatAppend(a: seq<string>, b: seq<string>)
    ensures Concat(a + b) == Concat(a) + Concat(b)
    decreases |b|
  {
    if b == [] {
      assert a + b == a;
    } else {
      assert (a + b)[..|a + b| - 1] == a + b[..|b| - 1];
      ConcatAppend(a, b[..|b| - 1]);
    }
  }

  /** The whole configuration text the builder returns. */
  function LabelConfigText(bodyparts: seq<string>, colors: seq<FloatRgb>): string {
    Header + Concat(LabelLines(bodyparts, colors)) + Footer
  }

  /** `create_label_config`, with the palette's colours passed in. */
  method CreateLabelConfig(bodyparts: seq<string>, colors: seq<FloatRgb>) returns (template: string)
    ensures template == LabelConfigText(bodyparts, colors)
  {
    ghost var lines := LabelLines(bodyparts, colors);
    template := Header;
    var i := 0;
    while i < Min(|bodyparts|, |colors|)
      invariant 0 <= i <= |lines|
      invariant template == Header + Concat(lines[..i])
    {
      var color := FloatRgbToIntRgb(colors[i]);
      var line := LabelLine(bodyparts[i], RgbToHex(color));
      LabelLineAt(bodyparts, colors, i);
      ExtendPrefix(Header, lines, i);
      template := template + line;
      i := i + 1;
    }
    assert lines[..i] == lines;
    template := template + Footer;
  }

  /** Where the i-th piece sits in `prefix + Concat(pieces) + suffix`. */
  lemma {:induction false} PieceAt(prefix: string, pieces: seq<string>, suffix: string, i: nat)
    requires i < |pieces|
    ensures var text := prefix + Concat(pieces) + suffix;
      var at := |prefix| + |Concat(pieces[..i])|;
      && text[..|prefix|] == prefix
      && text[|text| - |suffix|..] == suffix
      && at + |pieces[i]| <= |text|
      && text[at..at + |pieces[i]|] == pieces[i]
  {
    assert pieces == pieces[..i] + [pieces[i]] + pieces[i + 1..];
    ConcatAppend(pieces[..i] + [pieces[i]], pieces[i + 1..]);
    ConcatAppend(pieces[..i], [pieces[i]]);
    assert Concat([pieces[i]]) == pieces[i] by {
      assert [pieces[i]][..0] == [];
    }
  }

  /**
   * The text starts with the fixed header, ends with the fixed footer, and holds
   * `min(|bodyparts|, |colors|)` label elements in body part order between them:
   * the i-th one, for the i-th body part and colour, starts right after the
   * ones before it.
   */
  lemma LabelConfigLayout(bodyparts: seq<string>, colors: seq<FloatRgb>, i: nat)
    requires i < Min(|bodyparts|, |colors|)
    ensures var text := LabelConfigText(bodyparts, colors);
      var lines := LabelLines(bodyparts, colors);
      var at := |Header| + |Concat(lines[..i])|;
      && |lines| == Min(|bodyparts|, |colors|)
      && text[..|Header|] == Header
      && text[|text| - |Footer|..] == Footer
      && at + |lines[i]| <= |text|
      && text[at..at + |lines[i]|] == LabelLine(bodyparts[i], RgbToHex(FloatRgbToIntRgb(colors[i])))
  {
    PieceAt(Header, LabelLines(bodyparts, colors), Footer, i);
    LabelLineAt(bodyparts, colors, i);
  }
}
