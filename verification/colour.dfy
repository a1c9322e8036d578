/**
 * Fill colours: the winner's base colour from a fixed table, blended toward
 * white when the margin is narrow. Colours travel as `#rrggbb` strings, which
 * `lighten_color` parses into channels and formats back.
 */
module Colour {
  import opened Wrappers
  import opened Text
  import opened Parties

  type Channel = c: int | 0 <= c < 256

  datatype Rgb = Rgb(red: Channel, green: Channel, blue: Channel)

  const HexDigits: string := "0123456789abcdef"

  /** `'{:02x}'.format(c)`: two lower-case hex digits. */
  function HexPair(c: Channel): string {
    [HexDigits[c / 16], HexDigits[c % 16]]
  }

  /** `'#{:02x}{:02x}{:02x}'.format(r, g, b)`. */
  function Format(c: Rgb): (r: string)
    ensures |r| == 7 && r[0] == '#'
  {
    "#" + HexPair(c.red) + HexPair(c.green) + HexPair(c.blue)
  }

  /** The value of one hex digit, either case, as `int(_, 16)` reads it. */
  function DigitValue(ch: char): (r: Option<nat>)
    ensures r.Some? ==> r.value < 16
  {
    if '0' <= ch <= '9' then Some(ch as int - '0' as int)
    else if 'a' <= ch <= 'f' then Some(ch as int - 'a' as int + 10)
    else if 'A' <= ch <= 'F' then Some(ch as int - 'A' as int + 10)
    else None
  }

  /** `int(s, 16)` on a slice of at most two characters; an empty or non-hex slice raises. */
  function ParsePair(s: string): (r: Option<Channel>)
    requires |s| <= 2
    ensures r.Some? <==> |s| > 0 && forall k :: 0 <= k < |s| ==> DigitValue(s[k]).Some?
  {
    if |s| == 0 then None
    else if |s| == 1 then
      match DigitValue(s[0])
      case None => None
      case Some(d) => Some(d)
    else
      match (DigitValue(s[0]), DigitValue(s[1]))
      case (Some(h), Some(l)) => Some(16 * h + l)
      case _ => None
  }

  /** Python's `s[i:j]` for `0 <= i <= j`: the bounds are clamped to the string. */
  function Slice(s: string, i: nat, j: nat): (r: string)
    requires i <= j
    ensures |r| <= j - i
  {
    var hi := if j <= |s| then j else |s|;
    var lo := if i <= hi then i else hi;
    s[lo..hi]
  }

  /** A slice parses as hex exactly when it is non-empty and every character it keeps is a digit. */
  lemma SliceDigits(h: string, i: nat, j: nat)
    requires i + 2 == j
    ensures ParsePair(Slice(h, i, j)).Some? <==>
      i < |h| && forall k :: i <= k < |h| && k < j ==> DigitValue(h[k]).Some?
  {
    var t := Slice(h, i, j);
    assert forall k :: 0 <= k < |t| ==> t[k] == h[i + k];
    assert |t| == (if |h| <= i then 0 else if |h| < j then |h| - i else 2);
  }

  /**
   * The parsing half of `lighten_color`: leading `#`s stripped, then the three
   * two-character slices read as hex. None where Python raises.
   */
  function ParseColor(color: string): (r: Option<Rgb>)
    ensures var h := TrimLeft(color, {'#'});
      r.Some? <==> |h| >= 5 && forall k :: 0 <= k < |h| && k < 6 ==> DigitValue(h[k]).Some?
  {
    var h := TrimLeft(color, {'#'});
    SliceDigits(h, 0, 2);
    SliceDigits(h, 2, 4);
    SliceDigits(h, 4, 6);
    match (ParsePair(Slice(h, 0, 2)), ParsePair(Slice(h, 2, 4)), ParsePair(Slice(h, 4, 6)))
    case (Some(r), Some(g), Some(b)) => Some(Rgb(r, g, b))
    case _ => None
  }

  lemma DigitRoundTrip(k: nat)
    requires k < 16
    ensures DigitValue(HexDigits[k]) == Some(k)
  {
  }

  lemma PairRoundTrip(c: Channel)
    ensures ParsePair(HexPair(c)) == Some(c)
  {
    DigitRoundTrip(c / 16);
    DigitRoundTrip(c % 16);
  }

  /** Formatting then parsing a colour gives the colour back. */
  lemma ParseFormat(c: Rgb)
    ensures ParseColor(Format(c)) == Some(c)
  {
    var s := Format(c);
    var h := s[1..];
    assert h == HexPair(c.red) + HexPair(c.green) + HexPair(c.blue);
    assert HexDigits[c.red / 16] != '#';
    assert TrimLeft(s, {'#'}) == TrimLeft(h, {'#'}) == h;
    assert Slice(h, 0, 2) == HexPair(c.red);
    assert Slice(h, 2, 4) == HexPair(c.green);
    assert Slice(h, 4, 6) == HexPair(c.blue);
    PairRoundTrip(c.red);
    PairRoundTrip(c.green);
    PairRoundTrip(c.blue);
  }

  /**
   * One channel blended toward white by `factor`: `int((1 - f) * c + f * 255)`,
   * where `int` truncates and the value is never negative.
   */
  function LightenChannel(c: Channel, factor: real): (r: Channel)
    requires 0.0 <= factor <= 1.0
    ensures c <= r
    ensures factor == 0.0 ==> r == c
    ensures factor == 1.0 ==> r == 255
    ensures r as real <= (1.0 - factor) * (c as real) + factor * 255.0 < r as real + 1.0
  {
    var gap := 255.0 - c as real;
    var blended := (1.0 - factor) * (c as real) + factor * 255.0;
    assert blended == c as real + factor * gap;
    MulNonneg(factor, gap);
    MulNonneg(1.0 - factor, gap);
    assert factor * gap + (1.0 - factor) * gap == gap;
    assert c as real <= blended <= 255.0;
    blended.Floor
  }

  /** A product of two non-negative reals is non-negative. */
  lemma MulNonneg(a: real, b: real)
    requires a >= 0.0 && b >= 0.0
    ensures a * b >= 0.0
  {
  }

  /** The channel-wise blend toward white. */
  function Lighten(c: Rgb, factor: real): (r: Rgb)
    requires 0.0 <= factor <= 1.0
    ensures c.red <= r.red && c.green <= r.green && c.blue <= r.blue
    ensures factor == 0.0 ==> r == c
    ensures factor == 1.0 ==> r == Rgb(255, 255, 255)
  {
    Rgb(LightenChannel(c.red, factor), LightenChannel(c.green, factor), LightenChannel(c.blue, factor))
  }

  /** `lighten_color(color, factor)`: None where the colour string does not parse. */
  function LightenColor(color: string, factor: real): (r: Option<string>)
    requires 0.0 <= factor <= 1.0
    ensures r.Some? <==> ParseColor(color).Some?
    ensures r.Some? ==> ParseColor(r.value) == Some(Lighten(ParseColor(color).value, factor))
  {
    match ParseColor(color)
    case None => None
    case Some(c) =>
      ParseFormat(Lighten(c, factor));
      Some(Format(Lighten(c, factor)))
  }

  /** A well-formed colour lightens by its channels. */
  lemma LightenFormatted(c: Rgb, factor: real)
    requires 0.0 <= factor <= 1.0
    ensures LightenColor(Format(c), factor) == Some(Format(Lighten(c, factor)))
  {
    ParseFormat(c);
  }

  /** A larger factor never gives a darker channel. */
  lemma LightenMonotone(c: Channel, f1: real, f2: real)
    requires 0.0 <= f1 <= f2 <= 1.0
    ensures LightenChannel(c, f1) <= LightenChannel(c, f2)
  {
    var gap := 255.0 - c as real;
    assert gap >= 0.0;
    MulNonneg(f2 - f1, gap);
    assert (f2 - f1) * gap == f2 * gap - f1 * gap;
    assert f1 * gap <= f2 * gap;
    assert (1.0 - f1) * (c as real) + f1 * 255.0 == c as real + f1 * gap;
    assert (1.0 - f2) * (c as real) + f2 * 255.0 == c as real + f2 * gap;
  }

  /** Factor 0 keeps the colour; factor 1 gives white. */
  lemma LightenEnds(c: Rgb)
    ensures Lighten(c, 0.0) == c
    ensures Format(Lighten(c, 1.0)) == "#ffffff"
  {
  }

  /** `color_map`: the base colour of each party. */
  function BaseRgb(p: Party): Rgb {
    match p
    case LPC => Rgb(0xff, 0x00, 0x00)
    case CPC => Rgb(0x00, 0x00, 0xff)
    case NDP => Rgb(0xff, 0xa5, 0x00)
    case GRN => Rgb(0x00, 0xff, 0x00)
    case BLOC => Rgb(0x80, 0x00, 0x80)
    case PPC => Rgb(0xff, 0x14, 0x93)
    case IND => Rgb(0x80, 0x80, 0x80)
  }

  /** `color_map` as the strings the table holds. */
  function BaseColor(p: Party): (r: string)
    ensures ParseColor(r) == Some(BaseRgb(p))
  {
    ParseFormat(BaseRgb(p));
    Format(BaseRgb(p))
  }

  /** The colour strings of the table, party by party. */
  lemma BaseColorTable()
    ensures BaseColor(LPC) == "#ff0000" && BaseColor(CPC) == "#0000ff"
    ensures BaseColor(NDP) == "#ffa500" && BaseColor(GRN) == "#00ff00"
    ensures BaseColor(BLOC) == "#800080" && BaseColor(PPC) == "#ff1493"
    ensures BaseColor(IND) == "#808080"
  {
    FormatTable();
  }

  /** The table's channel triples as `'#{:02x}{:02x}{:02x}'` prints them. */
  lemma FormatTable()
    ensures Format(Rgb(0xff, 0x00, 0x00)) == "#ff0000" && Format(Rgb(0x00, 0x00, 0xff)) == "#0000ff"
    ensures Format(Rgb(0xff, 0xa5, 0x00)) == "#ffa500" && Format(Rgb(0x00, 0xff, 0x00)) == "#00ff00"
    ensures Format(Rgb(0x80, 0x00, 0x80)) == "#800080" && Format(Rgb(0xff, 0x14, 0x93)) == "#ff1493"
    ensures Format(Rgb(0x80, 0x80, 0x80)) == "#808080"
  {
    HexPairTable();
    assert Format(Rgb(0xff, 0x00, 0x00)) == "#ff0000" by { assert Format(Rgb(0xff, 0x00, 0x00)) == "#" + "ff" + "00" + "00"; }
    assert Format(Rgb(0x00, 0x00, 0xff)) == "#0000ff" by { assert Format(Rgb(0x00, 0x00, 0xff)) == "#" + "00" + "00" + "ff"; }
    assert Format(Rgb(0xff, 0xa5, 0x00)) == "#ffa500" by { assert Format(Rgb(0xff, 0xa5, 0x00)) == "#" + "ff" + "a5" + "00"; }
    assert Format(Rgb(0x00, 0xff, 0x00)) == "#00ff00" by { assert Format(Rgb(0x00, 0xff, 0x00)) == "#" + "00" + "ff" + "00"; }
    assert Format(Rgb(0x80, 0x00, 0x80)) == "#800080" by { assert Format(Rgb(0x80, 0x00, 0x80)) == "#" + "80" + "00" + "80"; }
    assert Format(Rgb(0xff, 0x14, 0x93)) == "#ff1493" by { assert Format(Rgb(0xff, 0x14, 0x93)) == "#" + "ff" + "14" + "93"; }
    assert Format(Rgb(0x80, 0x80, 0x80)) == "#808080" by { assert Format(Rgb(0x80, 0x80, 0x80)) == "#" + "80" + "80" + "80"; }
  }

  /** The hex pairs the table's channels print as. */
  lemma HexPairTable()
    ensures HexPair(0xff) == "ff" && HexPair(0x00) == "00" && HexPair(0xa5) == "a5"
    ensures HexPair(0x80) == "80" && HexPair(0x14) == "14" && HexPair(0x93) == "93"
  {
  }

  /** How far toward white a margin pushes the colour. */
  function Fade(margin: real): (f: real)
    ensures 0.0 <= f <= 0.5
  {
    if margin < 0.05 then 0.5
    else if margin < 0.10 then 0.3
    else 0.0
  }

  /**
   * The fill for a winner and margin: the base colour at a margin of 0.10 or
   * more, lightened by 0.3 from 0.05 up to 0.10, and by 0.5 below 0.05.
   */
  function FillColor(winner: Party, margin: real): (r: string)
    ensures margin >= 0.10 ==> r == BaseColor(winner)
    ensures 0.05 <= margin < 0.10 ==> LightenColor(BaseColor(winner), 0.3) == Some(r)
    ensures margin < 0.05 ==> LightenColor(BaseColor(winner), 0.5) == Some(r)
    ensures ParseColor(r) == Some(Lighten(BaseRgb(winner), Fade(margin)))
  {
    var c := Lighten(BaseRgb(winner), Fade(margin));
    LightenEnds(BaseRgb(winner));
    LightenFormatted(BaseRgb(winner), Fade(margin));
    ParseFormat(c);
    Format(c)
  }

  /** A wider margin never gives a lighter fill, channel by channel. */
  lemma WiderMarginNeverLighter(winner: Party, m1: real, m2: real)
    requires m1 <= m2
    ensures var a := Lighten(BaseRgb(winner), Fade(m1));
            var b := Lighten(BaseRgb(winner), Fade(m2));
            b.red <= a.red && b.green <= a.green && b.blue <= a.blue
  {
    var base := BaseRgb(winner);
    LightenMonotone(base.red, Fade(m2), Fade(m1));
    LightenMonotone(base.green, Fade(m2), Fade(m1));
    LightenMonotone(base.blue, Fade(m2), Fade(m1));
  }

  /** A close Liberal win (margin 0.04) is drawn half-way to white. */
  lemma FillExampleClose()
    ensures FillColor(LPC, 0.04) == "#ff7f7f"
  {
    assert Fade(0.04) == 0.5;
    assert LightenChannel(0, 0.5) == 127;
    assert LightenChannel(255, 0.5) == 255;
    var c := Rgb(255, 127, 127);
    assert Lighten(BaseRgb(LPC), 0.5) == c;
    assert HexPair(127) == "7f" && HexPair(255) == "ff";
    assert Format(c) == "#ff7f7f";
  }

  /** A narrow Liberal win (margin 0.07) is drawn three tenths of the way to white. */
  lemma FillExampleNarrow()
    ensures FillColor(LPC, 0.07) == "#ff4c4c"
  {
    assert Fade(0.07) == 0.3;
    assert LightenChannel(0, 0.3) == 76;
    assert LightenChannel(255, 0.3) == 255;
    var c := Rgb(255, 76, 76);
    assert Lighten(BaseRgb(LPC), 0.3) == c;
    assert HexPair(76) == "4c" && HexPair(255) == "ff";
    assert Format(c) == "#ff4c4c";
  }

  /** A comfortable Liberal win (margin 0.40) keeps the base red. */
  lemma FillExampleWide()
    ensures FillColor(LPC, 0.40) == "#ff0000"
  {
    BaseColorTable();
  }
}
