/**
 * The pure and state-changing helpers of the QR sign designer: the header
 * gradient's colour darkening, greedy word wrapping against an abstract text
 * measure, the x-coordinate of aligned text, the downloaded file's name, and
 * the design-option record with its icon-upload and reset updates.
 */
module QRCodeDesigner {
  import opened Wrappers
  import opened JsString
  import opened JsNumber

  // ---------------------------------------------------------------------
  // adjustBrightness
  // ---------------------------------------------------------------------

  /** `Math.max(0, Math.min(255, x))`; NaN stays NaN. */
  function ClampByte(x: Num): Num {
    Max(0, Min(255, x))
  }

  /** `x.toString(16).padStart(2, '0')`. */
  function ChannelText(x: Num): string {
    PadStart(ToHexString(x), 2, '0')
  }

  /** One channel: parse two hex characters, shift by `amount`, clamp, re-encode. */
  function AdjustChannel(pair: string, amount: int): string {
    ChannelText(ClampByte(Add(ParseIntHex(pair), amount)))
  }

  /** `adjustBrightness(color, amount)`: drop the first `#`, then adjust the
      channels at offsets 0, 2 and 4. Nothing checks that `color` is a colour. */
  function AdjustBrightness(color: string, amount: int): string {
    var hex := RemoveFirst(color, '#');
    "#" + AdjustChannel(Substr(hex, 0, 2), amount)
        + AdjustChannel(Substr(hex, 2, 2), amount)
        + AdjustChannel(Substr(hex, 4, 2), amount)
  }

  /** A `#rrggbb` colour, upper- or lower-case digits. */
  predicate IsHexColor(c: string) {
    |c| == 7 && c[0] == '#' && forall i :: 1 <= i < 7 ==> IsHexDigit(c[i])
  }

  /** A `#rrggbb` colour written with lower-case digits only. */
  predicate IsLowerHexColor(c: string) {
    |c| == 7 && c[0] == '#' && forall i :: 1 <= i < 7 ==> IsLowerHexDigit(c[i])
  }

  /** The byte two hex digits denote, most significant first. */
  function PairValue(c0: char, c1: char): (v: nat)
    requires IsHexDigit(c0) && IsHexDigit(c1)
    ensures v < 256
  {
    16 * HexDigitValue(c0) + HexDigitValue(c1)
  }

  /** Channel `k` (0 red, 1 green, 2 blue) of a colour, 0..255. */
  function ChannelValue(c: string, k: nat): (v: nat)
    requires IsHexColor(c) && k < 3
    ensures v < 256
  {
    PairValue(c[1 + 2 * k], c[2 + 2 * k])
  }

  /** `Math.max(0, Math.min(255, v))` on a whole number: saturates at both ends. */
  function Clamp(v: int): (r: int)
    ensures 0 <= r <= 255
    ensures 0 <= v <= 255 ==> r == v
  {
    if v < 0 then 0 else if v > 255 then 255 else v
  }

  /** On a finite number the NaN-aware clamp is `Clamp`, and NaN passes through. */
  lemma ClampByteFinite(n: int)
    ensures ClampByte(Finite(n)) == Finite(Clamp(n))
    ensures ClampByte(NaN) == NaN
  {
  }

  /** Out-of-range values saturate: below 0 gives 0, above 255 gives 255. */
  lemma ClampSaturates(v: int)
    ensures v < 0 ==> Clamp(v) == 0
    ensures v > 255 ==> Clamp(v) == 255
  {
  }

  /** One channel of a well-formed pair: two digits of `Clamp(value + amount)`. */
  lemma AdjustChannelDigits(c0: char, c1: char, amount: int)
    requires IsHexDigit(c0) && IsHexDigit(c1)
    ensures var v := Clamp(PairValue(c0, c1) + amount);
      AdjustChannel([c0, c1], amount) == [HexChar(v / 16), HexChar(v % 16)]
  {
    ParseTwoHexDigits([c0, c1]);
    var v := Clamp(PairValue(c0, c1) + amount);
    assert ClampByte(Add(ParseIntHex([c0, c1]), amount)) == Finite(v);
    HexByte(v);
  }

  /** The colour `toString(16)` and `padStart` write for three byte values. */
  function Rgb(r: nat, g: nat, b: nat): string
    requires r < 256 && g < 256 && b < 256
  {
    ['#', HexChar(r / 16), HexChar(r % 16), HexChar(g / 16), HexChar(g % 16), HexChar(b / 16), HexChar(b % 16)]
  }

  /** The colour written for three bytes has those bytes as its channels. */
  lemma RgbChannels(out: string, r: nat, g: nat, b: nat)
    requires r < 256 && g < 256 && b < 256 && out == Rgb(r, g, b)
    ensures IsLowerHexColor(out) && IsHexColor(out)
    ensures ChannelValue(out, 0) == r && ChannelValue(out, 1) == g && ChannelValue(out, 2) == b
  {
    assert out[1] == HexChar(r / 16) && out[2] == HexChar(r % 16);
    assert out[3] == HexChar(g / 16) && out[4] == HexChar(g % 16);
    assert out[5] == HexChar(b / 16) && out[6] == HexChar(b % 16);
    PairOfByte(r);
    PairOfByte(g);
    PairOfByte(b);
  }

  lemma PairOfByte(v: nat)
    requires v < 256
    ensures PairValue(HexChar(v / 16), HexChar(v % 16)) == v
  {
    DivMod16(v);
  }

  lemma RgbConcat(y1: string, y2: string, y3: string, r: nat, g: nat, b: nat)
    requires r < 256 && g < 256 && b < 256
    requires y1 == [HexChar(r / 16), HexChar(r % 16)]
    requires y2 == [HexChar(g / 16), HexChar(g % 16)]
    requires y3 == [HexChar(b / 16), HexChar(b % 16)]
    ensures "#" + y1 + y2 + y3 == Rgb(r, g, b)
  {
  }

  /** The three two-character slices `adjustBrightness` reads from `#` and six digits. */
  lemma ColorPairs(c1: char, c2: char, c3: char, c4: char, c5: char, c6: char, amount: int)
    ensures AdjustBrightness(HexColor(c1, c2, c3, c4, c5, c6), amount) ==
      "#" + AdjustChannel([c1, c2], amount) + AdjustChannel([c3, c4], amount) + AdjustChannel([c5, c6], amount)
  {
    var color := HexColor(c1, c2, c3, c4, c5, c6);
    assert RemoveFirst(color, '#') == color[1..];
    assert Substr(color[1..], 0, 2) == [c1, c2];
    assert Substr(color[1..], 2, 2) == [c3, c4];
    assert Substr(color[1..], 4, 2) == [c5, c6];
  }

  /** The three adjusted pairs, concatenated behind `#`, spell the clamped channels. */
  lemma AdjustedPairsAreRgb(c1: char, c2: char, c3: char, c4: char, c5: char, c6: char, amount: int)
    requires IsHexDigit(c1) && IsHexDigit(c2) && IsHexDigit(c3)
    requires IsHexDigit(c4) && IsHexDigit(c5) && IsHexDigit(c6)
    ensures "#" + AdjustChannel([c1, c2], amount) + AdjustChannel([c3, c4], amount)
      + AdjustChannel([c5, c6], amount) ==
      Rgb(Clamp(PairValue(c1, c2) + amount),
          Clamp(PairValue(c3, c4) + amount),
          Clamp(PairValue(c5, c6) + amount))
  {
    AdjustChannelDigits(c1, c2, amount);
    AdjustChannelDigits(c3, c4, amount);
    AdjustChannelDigits(c5, c6, amount);
    RgbConcat(AdjustChannel([c1, c2], amount), AdjustChannel([c3, c4], amount),
              AdjustChannel([c5, c6], amount),
              Clamp(PairValue(c1, c2) + amount),
              Clamp(PairValue(c3, c4) + amount),
              Clamp(PairValue(c5, c6) + amount));
  }

  /** `adjustBrightness` of `#` and six hex digits, digit by digit. */
  lemma AdjustDigits(c1: char, c2: char, c3: char, c4: char, c5: char, c6: char, amount: int)
    requires IsHexDigit(c1) && IsHexDigit(c2) && IsHexDigit(c3)
    requires IsHexDigit(c4) && IsHexDigit(c5) && IsHexDigit(c6)
    ensures AdjustBrightness(HexColor(c1, c2, c3, c4, c5, c6), amount) ==
      Rgb(Clamp(PairValue(c1, c2) + amount),
          Clamp(PairValue(c3, c4) + amount),
          Clamp(PairValue(c5, c6) + amount))
  {
    ColorPairs(c1, c2, c3, c4, c5, c6, amount);
    AdjustedPairsAreRgb(c1, c2, c3, c4, c5, c6, amount);
  }

  /** The colour `#` followed by the six digits. */
  function HexColor(c1: char, c2: char, c3: char, c4: char, c5: char, c6: char): (color: string)
    ensures |color| == 7 && color[0] == '#'
    ensures IsHexColor(color) <==>
      IsHexDigit(c1) && IsHexDigit(c2) && IsHexDigit(c3) && IsHexDigit(c4) && IsHexDigit(c5) && IsHexDigit(c6)
  {
    var color := ['#', c1, c2, c3, c4, c5, c6];
    assert color[1] == c1 && color[2] == c2 && color[3] == c3;
    assert color[4] == c4 && color[5] == c5 && color[6] == c6;
    color
  }

  /** Every `#rrggbb` colour is `HexColor` of its six digits. */
  lemma HexColorOfDigits(color: string)
    requires IsHexColor(color)
    ensures color == HexColor(color[1], color[2], color[3], color[4], color[5], color[6])
  {
  }

  /** For a `#rrggbb` input the result is a lower-case `#rrggbb` colour whose
      every channel is the input channel plus `amount`, clamped to 0..255. */
  lemma AdjustBrightnessChannels(c1: char, c2: char, c3: char, c4: char, c5: char, c6: char, amount: int)
    requires IsHexDigit(c1) && IsHexDigit(c2) && IsHexDigit(c3)
    requires IsHexDigit(c4) && IsHexDigit(c5) && IsHexDigit(c6)
    ensures IsLowerHexColor(AdjustBrightness(HexColor(c1, c2, c3, c4, c5, c6), amount))
    ensures forall k :: 0 <= k < 3 ==>
      ChannelValue(AdjustBrightness(HexColor(c1, c2, c3, c4, c5, c6), amount), k) ==
      Clamp(ChannelValue(HexColor(c1, c2, c3, c4, c5, c6), k) + amount)
  {
    AdjustDigits(c1, c2, c3, c4, c5, c6, amount);
    ShiftedColor(c1, c2, c3, c4, c5, c6, AdjustBrightness(HexColor(c1, c2, c3, c4, c5, c6), amount), amount);
  }

  /** A colour spelling the shifted, clamped digit pairs of `HexColor(c1, ..., c6)`
      has exactly those channels. */
  lemma ShiftedChannels(c1: char, c2: char, c3: char, c4: char, c5: char, c6: char, out: string, amount: int)
    requires IsHexDigit(c1) && IsHexDigit(c2) && IsHexDigit(c3)
    requires IsHexDigit(c4) && IsHexDigit(c5) && IsHexDigit(c6)
    requires out == Rgb(Clamp(PairValue(c1, c2) + amount),
                        Clamp(PairValue(c3, c4) + amount),
                        Clamp(PairValue(c5, c6) + amount))
    ensures IsLowerHexColor(out) && IsHexColor(out) && IsHexColor(HexColor(c1, c2, c3, c4, c5, c6))
    ensures ChannelValue(out, 0) == Clamp(ChannelValue(HexColor(c1, c2, c3, c4, c5, c6), 0) + amount)
    ensures ChannelValue(out, 1) == Clamp(ChannelValue(HexColor(c1, c2, c3, c4, c5, c6), 1) + amount)
    ensures ChannelValue(out, 2) == Clamp(ChannelValue(HexColor(c1, c2, c3, c4, c5, c6), 2) + amount)
  {
    RgbChannels(out, Clamp(PairValue(c1, c2) + amount), Clamp(PairValue(c3, c4) + amount),
                Clamp(PairValue(c5, c6) + amount));
    HexColorChannels(c1, c2, c3, c4, c5, c6);
  }

  /** The channels of `HexColor(c1, ..., c6)` are its three digit pairs. */
  lemma HexColorChannels(c1: char, c2: char, c3: char, c4: char, c5: char, c6: char)
    requires IsHexDigit(c1) && IsHexDigit(c2) && IsHexDigit(c3)
    requires IsHexDigit(c4) && IsHexDigit(c5) && IsHexDigit(c6)
    ensures IsHexColor(HexColor(c1, c2, c3, c4, c5, c6))
    ensures ChannelValue(HexColor(c1, c2, c3, c4, c5, c6), 0) == PairValue(c1, c2)
    ensures ChannelValue(HexColor(c1, c2, c3, c4, c5, c6), 1) == PairValue(c3, c4)
    ensures ChannelValue(HexColor(c1, c2, c3, c4, c5, c6), 2) == PairValue(c5, c6)
  {
    var color := HexColor(c1, c2, c3, c4, c5, c6);
    assert color[1] == c1 && color[2] == c2 && color[3] == c3;
    assert color[4] == c4 && color[5] == c5 && color[6] == c6;
  }

  /** The same, under one quantifier over the channels. */
  lemma ShiftedColor(c1: char, c2: char, c3: char, c4: char, c5: char, c6: char, out: string, amount: int)
    requires IsHexDigit(c1) && IsHexDigit(c2) && IsHexDigit(c3)
    requires IsHexDigit(c4) && IsHexDigit(c5) && IsHexDigit(c6)
    requires out == Rgb(Clamp(PairValue(c1, c2) + amount),
                        Clamp(PairValue(c3, c4) + amount),
                        Clamp(PairValue(c5, c6) + amount))
    ensures IsLowerHexColor(out)
    ensures forall k :: 0 <= k < 3 ==>
      ChannelValue(out, k) == Clamp(ChannelValue(HexColor(c1, c2, c3, c4, c5, c6), k) + amount)
  {
    ShiftedChannels(c1, c2, c3, c4, c5, c6, out, amount);
    EveryChannel(out, HexColor(c1, c2, c3, c4, c5, c6), amount);
  }

  /** Three channel equations, gathered under one quantifier. */
  lemma EveryChannel(out: string, color: string, amount: int)
    requires IsHexColor(out) && IsHexColor(color)
    requires ChannelValue(out, 0) == Clamp(ChannelValue(color, 0) + amount)
    requires ChannelValue(out, 1) == Clamp(ChannelValue(color, 1) + amount)
    requires ChannelValue(out, 2) == Clamp(ChannelValue(color, 2) + amount)
    ensures forall k :: 0 <= k < 3 ==> ChannelValue(out, k) == Clamp(ChannelValue(color, k) + amount)
  {
    forall k | 0 <= k < 3
      ensures ChannelValue(out, k) == Clamp(ChannelValue(color, k) + amount)
    {
      assert k == 0 || k == 1 || k == 2;
    }
  }

  /** A non-positive amount (the header gradient uses -40) never brightens. */
  lemma DarkeningNeverBrightens(c1: char, c2: char, c3: char, c4: char, c5: char, c6: char, amount: int)
    requires IsHexDigit(c1) && IsHexDigit(c2) && IsHexDigit(c3)
    requires IsHexDigit(c4) && IsHexDigit(c5) && IsHexDigit(c6)
    requires amount <= 0
    ensures IsHexColor(AdjustBrightness(HexColor(c1, c2, c3, c4, c5, c6), amount))
    ensures forall k :: 0 <= k < 3 ==>
      ChannelValue(AdjustBrightness(HexColor(c1, c2, c3, c4, c5, c6), amount), k) <=
      ChannelValue(HexColor(c1, c2, c3, c4, c5, c6), k)
  {
    AdjustBrightnessChannels(c1, c2, c3, c4, c5, c6, amount);
  }

  /** A lower-case colour is the encoding of its own channels. */
  lemma LowerColorIsRgb(color: string)
    requires IsLowerHexColor(color)
    ensures IsHexColor(color)
    ensures color == Rgb(ChannelValue(color, 0), ChannelValue(color, 1), ChannelValue(color, 2))
  {
    assert IsHexColor(color);
    var c1, c2, c3, c4, c5, c6 := color[1], color[2], color[3], color[4], color[5], color[6];
    HexColorOfDigits(color);
    HexColorChannels(c1, c2, c3, c4, c5, c6);
    LowerDigitsAreRgb(c1, c2, c3, c4, c5, c6);
  }

  /** Six lower-case digits are the encoding of their three pair values. */
  lemma LowerDigitsAreRgb(c1: char, c2: char, c3: char, c4: char, c5: char, c6: char)
    requires IsLowerHexDigit(c1) && IsLowerHexDigit(c2) && IsLowerHexDigit(c3)
    requires IsLowerHexDigit(c4) && IsLowerHexDigit(c5) && IsLowerHexDigit(c6)
    ensures HexColor(c1, c2, c3, c4, c5, c6) == Rgb(PairValue(c1, c2), PairValue(c3, c4), PairValue(c5, c6))
  {
    ChannelDigits(c1, c2);
    ChannelDigits(c3, c4);
    ChannelDigits(c5, c6);
  }

  lemma ChannelDigits(c0: char, c1: char)
    requires IsLowerHexDigit(c0) && IsLowerHexDigit(c1)
    ensures HexChar(PairValue(c0, c1) / 16) == c0 && HexChar(PairValue(c0, c1) % 16) == c1
  {
    DigitsOfByte(HexDigitValue(c0), HexDigitValue(c1));
    HexCharOfValue(c0);
    HexCharOfValue(c1);
  }

  /** Adjusting a lower-case colour by 0 returns it unchanged. */
  lemma AdjustByZero(c1: char, c2: char, c3: char, c4: char, c5: char, c6: char)
    requires IsLowerHexColor(HexColor(c1, c2, c3, c4, c5, c6))
    ensures AdjustBrightness(HexColor(c1, c2, c3, c4, c5, c6), 0) == HexColor(c1, c2, c3, c4, c5, c6)
  {
    LowerColorDigits(c1, c2, c3, c4, c5, c6);
    AdjustDigits(c1, c2, c3, c4, c5, c6, 0);
    LowerDigitsAreRgb(c1, c2, c3, c4, c5, c6);
  }

  /** The digits of a lower-case colour are lower-case hex digits. */
  lemma LowerColorDigits(c1: char, c2: char, c3: char, c4: char, c5: char, c6: char)
    requires IsLowerHexColor(HexColor(c1, c2, c3, c4, c5, c6))
    ensures IsLowerHexDigit(c1) && IsLowerHexDigit(c2) && IsLowerHexDigit(c3)
    ensures IsLowerHexDigit(c4) && IsLowerHexDigit(c5) && IsLowerHexDigit(c6)
  {
    var color := HexColor(c1, c2, c3, c4, c5, c6);
    assert color[1] == c1 && color[2] == c2 && color[3] == c3;
    assert color[4] == c4 && color[5] == c5 && color[6] == c6;
  }

  /** A value that is not a colour is not rejected: an empty colour, or a
      lone `#`, yields NaN in every channel. */
  lemma EmptyColorIsNaN(color: string, amount: int)
    requires color == [] || color == ['#']
    ensures AdjustBrightness(color, amount) == "#NaNNaNNaN"
  {
    var hex := RemoveFirst(color, '#');
    assert hex == [];
    var nan := AdjustChannel(hex, amount);
    assert nan == "NaN" by { assert ParseIntHex(hex) == NaN; }
    assert Substr(hex, 0, 2) == hex && Substr(hex, 2, 2) == hex && Substr(hex, 4, 2) == hex;
    assert AdjustBrightness(color, amount) == "#" + nan + nan + nan;
  }

  // ---------------------------------------------------------------------
  // wrapText
  // ---------------------------------------------------------------------

  /** The first space-separated word of `s`. */
  function FirstWord(s: string): string {
    SplitOn(s, ' ')[0]
  }

  /** The line was built word by word, and each of its prefixes of two or more
      words measured below the width when it was formed. */
  predicate PrefixesFit(line: string, maxWidth: int, measure: string -> int) {
    var ws := SplitOn(line, ' ');
    forall j :: 2 <= j <= |ws| ==> measure(JoinWith(ws[..j], ' ')) < maxWidth
  }

  /** Every line, and every prefix of it of two or more words, measures below the width. */
  predicate MultiWordLinesFit(lines: seq<string>, maxWidth: int, measure: string -> int) {
    forall k :: 0 <= k < |lines| ==> PrefixesFit(lines[k], maxWidth, measure)
  }

  /** A line holding a space measures below the width. */
  lemma PrefixesFitWhole(line: string, maxWidth: int, measure: string -> int)
    requires PrefixesFit(line, maxWidth, measure)
    requires ' ' in line
    ensures measure(line) < maxWidth
  {
    var ws := SplitOn(line, ' ');
    JoinSplit(line, ' ');
    JoinSingle(ws, ' ');
    assert |ws| >= 2;
    TakeAll(ws);
  }

  /** A single word fits trivially. */
  lemma PrefixesFitWord(w: string, maxWidth: int, measure: string -> int)
    requires ' ' !in w
    ensures PrefixesFit(w, maxWidth, measure)
  {
    SplitNoSep(w, ' ');
  }

  /** Extending a line by a word that fits keeps every prefix fitting. */
  lemma PrefixesFitExtend(cur: string, w: string, maxWidth: int, measure: string -> int)
    requires ' ' !in w
    requires PrefixesFit(cur, maxWidth, measure)
    requires measure(cur + " " + w) < maxWidth
    ensures PrefixesFit(cur + " " + w, maxWidth, measure)
  {
    var ws := SplitOn(cur, ' ');
    var ext := cur + " " + w;
    SplitAppendSep(cur, w, ' ');
    SplitNoSep(w, ' ');
    var ws' := SplitOn(ext, ' ');
    assert ws' == ws + [w];
    forall j | 2 <= j <= |ws'|
      ensures measure(JoinWith(ws'[..j], ' ')) < maxWidth
    {
      if j <= |ws| {
        assert ws'[..j] == ws[..j];
      } else {
        TakeAll(ws');
        JoinSplit(ext, ' ');
      }
    }
  }

  /** Every line break was forced: the next line's first word would not fit. */
  predicate BreaksAreForced(lines: seq<string>, maxWidth: int, measure: string -> int) {
    forall k :: 0 <= k < |lines| - 1 ==>
      measure(lines[k] + " " + FirstWord(lines[k + 1])) >= maxWidth
  }

  lemma JoinExtendLast(lines: seq<string>, cur: string, word: string)
    ensures JoinWith(lines + [cur + " " + word], ' ') == JoinWith(lines + [cur], ' ') + " " + word
  {
    if lines == [] {
      AppendAssoc(lines, [], [cur + " " + word]);
      AppendAssoc(lines, [], [cur]);
    } else {
      JoinSnoc(lines, cur + " " + word, ' ');
      JoinSnoc(lines, cur, ' ');
    }
  }

  lemma FirstWordExtend(cur: string, word: string)
    ensures FirstWord(cur + " " + word) == FirstWord(cur)
  {
    SplitAppendSep(cur, word, ' ');
  }

  /** A line may follow the others when it fits or is a single word. */
  lemma FitsSnoc(lines: seq<string>, line: string, maxWidth: int, measure: string -> int)
    requires MultiWordLinesFit(lines, maxWidth, measure)
    requires PrefixesFit(line, maxWidth, measure)
    ensures MultiWordLinesFit(lines + [line], maxWidth, measure)
  {
    forall k | 0 <= k < |lines + [line]|
      ensures (lines + [line])[k] == if k < |lines| then lines[k] else line
    {
    }
  }

  /** A line may follow the others when its first word did not fit after the last one. */
  lemma BreaksSnoc(lines: seq<string>, line: string, maxWidth: int, measure: string -> int)
    requires BreaksAreForced(lines, maxWidth, measure)
    requires lines != [] ==> measure(lines[|lines| - 1] + " " + FirstWord(line)) >= maxWidth
    ensures BreaksAreForced(lines + [line], maxWidth, measure)
  {
    forall k | 0 <= k < |lines + [line]|
      ensures (lines + [line])[k] == if k < |lines| then lines[k] else line
    {
    }
  }

  /** The loop state of `wrapText` after `i` words: the finished lines and the
      current line hold exactly those words, and both line properties hold so far. */
  predicate WrapProgress(words: seq<string>, i: int, lines: seq<string>, currentLine: string,
                         maxWidth: int, measure: string -> int)
  {
    && 1 <= i <= |words|
    && JoinWith(lines + [currentLine], ' ') == JoinWith(words[..i], ' ')
    && MultiWordLinesFit(lines, maxWidth, measure)
    && PrefixesFit(currentLine, maxWidth, measure)
    && BreaksAreForced(lines, maxWidth, measure)
    && (lines != [] ==> measure(lines[|lines| - 1] + " " + FirstWord(currentLine)) >= maxWidth)
  }

  /** Before the loop: no finished line, and the first word is the current one. */
  lemma WrapStart(words: seq<string>, maxWidth: int, measure: string -> int)
    requires words != [] && ' ' !in words[0]
    ensures WrapProgress(words, 1, [], words[0], maxWidth, measure)
  {
    TakeSnoc(words, 0);
    PrefixesFitWord(words[0], maxWidth, measure);
  }

  /** The next word fits: it joins the current line. */
  lemma WrapExtend(words: seq<string>, i: int, lines: seq<string>, currentLine: string,
                   maxWidth: int, measure: string -> int)
    requires WrapProgress(words, i, lines, currentLine, maxWidth, measure) && i < |words|
    requires measure(currentLine + " " + words[i]) < maxWidth
    requires ' ' !in words[i]
    ensures WrapProgress(words, i + 1, lines, currentLine + " " + words[i], maxWidth, measure)
  {
    PrefixesFitExtend(currentLine, words[i], maxWidth, measure);
    TakeSnoc(words, i);
    JoinSnoc(words[..i], words[i], ' ');
    JoinExtendLast(lines, currentLine, words[i]);
    FirstWordExtend(currentLine, words[i]);
  }

  /** The next word does not fit: the current line is finished and the word starts the next. */
  lemma WrapBreak(words: seq<string>, i: int, lines: seq<string>, currentLine: string,
                  maxWidth: int, measure: string -> int)
    requires WrapProgress(words, i, lines, currentLine, maxWidth, measure) && i < |words|
    requires measure(currentLine + " " + words[i]) >= maxWidth
    requires ' ' !in words[i]
    ensures WrapProgress(words, i + 1, lines + [currentLine], words[i], maxWidth, measure)
  {
    TakeSnoc(words, i);
    JoinSnoc(words[..i], words[i], ' ');
    JoinSnoc(lines + [currentLine], words[i], ' ');
    SplitNoSep(words[i], ' ');
    PrefixesFitWord(words[i], maxWidth, measure);
    FitsSnoc(lines, currentLine, maxWidth, measure);
    BreaksSnoc(lines, currentLine, maxWidth, measure);
  }

  /** After the last word, the lines with the current one appended are the result. */
  lemma WrapDone(text: string, lines: seq<string>, currentLine: string, maxWidth: int, measure: string -> int)
    requires WrapProgress(SplitOn(text, ' '), |SplitOn(text, ' ')|, lines, currentLine, maxWidth, measure)
    ensures 1 <= |lines + [currentLine]| <= |SplitOn(text, ' ')|
    ensures JoinWith(lines + [currentLine], ' ') == text
    ensures SplitAll(lines + [currentLine], ' ') == SplitOn(text, ' ')
    ensures MultiWordLinesFit(lines + [currentLine], maxWidth, measure)
    ensures BreaksAreForced(lines + [currentLine], maxWidth, measure)
  {
    FitsSnoc(lines, currentLine, maxWidth, measure);
    BreaksSnoc(lines, currentLine, maxWidth, measure);
    TakeAll(SplitOn(text, ' '));
    JoinSplit(text, ' ');
    SplitJoin(lines + [currentLine], ' ');
    SplitAllLength(lines + [currentLine], ' ');
  }

  /** `wrapText`: greedily packs the space-separated words of `text` into
      lines, starting a new line whenever `measure` of the extended line
      reaches `maxWidth`. */
  method WrapText(text: string, maxWidth: int, measure: string -> int) returns (lines: seq<string>)
    ensures 1 <= |lines| <= |SplitOn(text, ' ')|
    ensures JoinWith(lines, ' ') == text
    ensures SplitAll(lines, ' ') == SplitOn(text, ' ')
    ensures MultiWordLinesFit(lines, maxWidth, measure)
    ensures BreaksAreForced(lines, maxWidth, measure)
  {
    var words := SplitOn(text, ' ');
    lines := [];
    var currentLine := words[0];
    WrapStart(words, maxWidth, measure);
    var i := 1;
    while i < |words|
      invariant WrapProgress(words, i, lines, currentLine, maxWidth, measure)
      decreases |words| - i
    {
      var word := words[i];
      var width := measure(currentLine + " " + word);
      if width < maxWidth {
        WrapExtend(words, i, lines, currentLine, maxWidth, measure);
        currentLine := currentLine + " " + word;
      } else {
        WrapBreak(words, i, lines, currentLine, maxWidth, measure);
        lines := lines + [currentLine];
        currentLine := word;
      }
      i := i + 1;
    }
    WrapDone(text, lines, currentLine, maxWidth, measure);
    lines := lines + [currentLine];
  }

  /** The measure never shrinks when words are added on either side. */
  ghost predicate GrowsWithWords(measure: string -> int) {
    forall x: string, y: string :: measure(x) <= measure(x + " " + y) && measure(y) <= measure(x + " " + y)
  }

  lemma {:induction false} PartsMeasureBound(parts: seq<string>, w: string, measure: string -> int)
    requires GrowsWithWords(measure)
    requires w in parts
    ensures measure(w) <= measure(JoinWith(parts, ' '))
  {
    if |parts| > 1 {
      var rest := JoinWith(parts[1..], ' ');
      assert JoinWith(parts, ' ') == parts[0] + " " + rest;
      if w != parts[0] {
        PartsMeasureBound(parts[1..], w, measure);
      }
    }
  }

  /** Under a measure that grows with words, an over-wide word stands alone
      on its line: the wrap never splits a word, and never gives it company. */
  lemma OverlongWordStandsAlone(lines: seq<string>, maxWidth: int, measure: string -> int, k: nat, w: string)
    requires GrowsWithWords(measure)
    requires MultiWordLinesFit(lines, maxWidth, measure)
    requires k < |lines| && w in SplitOn(lines[k], ' ') && measure(w) >= maxWidth
    ensures lines[k] == w
  {
    if ' ' in lines[k] {
      PrefixesFitWhole(lines[k], maxWidth, measure);
      JoinSplit(lines[k], ' ');
      PartsMeasureBound(SplitOn(lines[k], ' '), w, measure);
      assert false;
    }
    SplitNoSep(lines[k], ' ');
  }

  // ---------------------------------------------------------------------
  // Layout constants and aligned text
  // ---------------------------------------------------------------------

  const CANVAS_WIDTH: int := 850
  const CANVAS_HEIGHT: int := 1100
  const MARGIN: int := 60

  datatype Align = AlignLeft | AlignCenter | AlignRight

  /** The x-coordinate the title, subtitle and description are drawn at. */
  function TextX(align: Align): (x: int)
    ensures MARGIN <= x <= CANVAS_WIDTH - MARGIN
  {
    if align == AlignCenter then CANVAS_WIDTH / 2
    else if align == AlignRight then CANVAS_WIDTH - MARGIN
    else MARGIN
  }

  lemma TextXValues()
    ensures TextX(AlignCenter) == 425
    ensures TextX(AlignRight) == 790
    ensures TextX(AlignLeft) == 60
  {
  }

  // ---------------------------------------------------------------------
  // Download file name
  // ---------------------------------------------------------------------

  /** A file-name character kept as it is: neither whitespace nor `_`. */
  predicate IsNameChar(c: char) {
    !IsWhite(c) && c != '_'
  }

  /** The facility name with every maximal whitespace run turned into `_`. */
  function DownloadStem(facilityName: string): string {
    ReplaceRuns(facilityName, IsWhite, '_')
  }

  /** The `download` attribute of the generated link. */
  function DownloadName(facilityName: string): (file: string)
    ensures NoWhite(file)
  {
    var stem := DownloadStem(facilityName);
    assert NoWhite(stem);
    stem + "_QR_Sign.png"
  }

  /** The stem has no whitespace, is no longer than the name, keeps every
      other character except `_` in order, and equals a name without
      whitespace. */
  lemma DownloadStemShape(facilityName: string)
    ensures NoWhite(DownloadStem(facilityName))
    ensures |DownloadStem(facilityName)| <= |facilityName|
    ensures Filter(IsNameChar, DownloadStem(facilityName)) == Filter(IsNameChar, facilityName)
    ensures NoWhite(facilityName) ==> DownloadStem(facilityName) == facilityName
  {
    ReplaceRunsFilter(facilityName, IsWhite, '_', IsNameChar);
    if NoWhite(facilityName) {
      ReplaceRunsIdentity(facilityName, IsWhite, '_');
    }
  }

  /** Each maximal whitespace run of the name becomes exactly one `_`. With the
      whitespace-free case above this determines the stem of every name. */
  lemma DownloadStemRun(x: string, w: string, y: string)
    requires NoWhite(x)
    requires w != [] && forall i :: 0 <= i < |w| ==> IsWhite(w[i])
    requires y == [] || !IsWhite(y[0])
    ensures DownloadStem(x + w + y) == x + "_" + DownloadStem(y)
  {
    ReplaceRunsRun(x, w, y, IsWhite, '_');
  }

  // ---------------------------------------------------------------------
  // Design options
  // ---------------------------------------------------------------------

  datatype Placement = PlaceTop | PlaceBottom | PlaceLeft | PlaceRight | PlaceCenter
  datatype CorrectionLevel = LevelL | LevelM | LevelQ | LevelH
  datatype HeaderStyle = HeaderSolid | HeaderGradient | HeaderNone

  /** The part of a browser `File` the designer looks at. */
  datatype IconFile = IconFile(name: string, mimeType: string)

  datatype DesignOptions = DesignOptions(
    qrColor: string,
    qrBackground: string,
    qrSize: int,
    qrMargin: int,
    qrPosition: Placement,
    errorCorrectionLevel: CorrectionLevel,
    signTitle: string,
    signSubtitle: string,
    signDescription: string,
    titleColor: string,
    subtitleColor: string,
    descriptionColor: string,
    backgroundColor: string,
    borderColor: string,
    borderWidth: int,
    titleFont: string,
    subtitleFont: string,
    descriptionFont: string,
    titleSize: int,
    subtitleSize: int,
    descriptionSize: int,
    titleWeight: string,
    subtitleWeight: string,
    descriptionWeight: string,
    titleAlign: Align,
    subtitleAlign: Align,
    descriptionAlign: Align,
    gradientBackground: bool,
    gradientColor1: string,
    gradientColor2: string,
    shadowEnabled: bool,
    roundedCorners: bool,
    cornerRadius: int,
    headerStyle: HeaderStyle,
    headerColor: string,
    customIcon: Option<IconFile>,
    iconSize: int,
    iconPosition: Placement)

  const SUBTITLE := "Scan to Share Your Experience"
  const DESCRIPTION := "Help us maintain the highest standards of cleanliness and service. Your feedback enables our maintenance team to respond quickly to issues."
  const FONT := "Arial, sans-serif"

  /** The option record with the given sizes; every other field is shared
      by the initial state and the reset. */
  function OptionsWithSizes(facilityName: string, qrSize: int, titleSize: int, subtitleSize: int,
                            descriptionSize: int): DesignOptions
  {
    DesignOptions(
      "#000000", "#FFFFFF", qrSize, 20, PlaceCenter, LevelH,
      facilityName + " Feedback", SUBTITLE, DESCRIPTION,
      "#1e40af", "#374151", "#6b7280", "#ffffff", "#e5e7eb", 3,
      FONT, FONT, FONT,
      titleSize, subtitleSize, descriptionSize,
      "bold", "normal", "normal",
      AlignCenter, AlignCenter, AlignCenter,
      false, "#f8fafc", "#e2e8f0", true, true, 12, HeaderGradient, "#1e40af",
      None, 80, PlaceTop)
  }

  /** The options the designer opens with. */
  function InitialOptions(facilityName: string): DesignOptions {
    OptionsWithSizes(facilityName, 320, 84, 52, 36)
  }

  /** The options `resetToDefaults` installs. */
  function DefaultOptions(facilityName: string): DesignOptions {
    OptionsWithSizes(facilityName, 240, 52, 32, 24)
  }

  /** Every slider-controlled option lies within its slider's range. */
  predicate InSliderRanges(o: DesignOptions) {
    && 150 <= o.qrSize <= 350
    && 24 <= o.titleSize <= 72
    && 16 <= o.subtitleSize <= 48
    && 14 <= o.descriptionSize <= 32
    && 0 <= o.borderWidth <= 10
    && 5 <= o.cornerRadius <= 30
    && 40 <= o.iconSize <= 120
  }

  /** The reset puts every slider within range; the initial state does not
      (its title, subtitle and description sizes are past their maxima). */
  lemma SliderRanges(facilityName: string)
    ensures InSliderRanges(DefaultOptions(facilityName))
    ensures !InSliderRanges(InitialOptions(facilityName))
    ensures InitialOptions(facilityName).titleSize > 72
    ensures InitialOptions(facilityName).subtitleSize > 48
    ensures InitialOptions(facilityName).descriptionSize > 32
  {
  }

  /** The initial state and the reset differ only in the four sizes. */
  lemma ResetChangesOnlySizes(facilityName: string)
    ensures DefaultOptions(facilityName) == InitialOptions(facilityName).(
      qrSize := 240, titleSize := 52, subtitleSize := 32, descriptionSize := 24)
  {
  }

  /** `handleIconUpload`'s update: an image file replaces the icon; no file,
      or a file of another type, leaves the options as they were. */
  function WithUploadedIcon(prev: DesignOptions, file: Option<IconFile>): (next: DesignOptions)
    ensures next.(customIcon := prev.customIcon) == prev
    ensures next.customIcon != prev.customIcon ==>
      file.Some? && StartsWith(file.value.mimeType, "image/") && next.customIcon == file
  {
    if file.Some? && StartsWith(file.value.mimeType, "image/") then prev.(customIcon := file)
    else prev
  }

  lemma UploadIconCases(prev: DesignOptions, file: Option<IconFile>)
    ensures file.Some? && StartsWith(file.value.mimeType, "image/") ==>
      WithUploadedIcon(prev, file).customIcon == file
    ensures !(file.Some? && StartsWith(file.value.mimeType, "image/")) ==>
      WithUploadedIcon(prev, file) == prev
  {
  }

  /** The facility the sign is designed for. */
  datatype Facility = Facility(id: string, name: string, kind: string, description: Option<string>)

  /** The download button is disabled while generating or before a preview exists. */
  predicate DownloadDisabled(isGenerating: bool, previewUrl: string) {
    isGenerating || previewUrl == ""
  }

  /** The designer's component state. */
  class Designer {
    const facility: Facility
    var designOptions: DesignOptions
    var previewUrl: string
    var isGenerating: bool

    /** The download button's `disabled` attribute. */
    predicate DownloadButtonDisabled()
      reads this
    {
      DownloadDisabled(isGenerating, previewUrl)
    }

    constructor(facility: Facility)
      ensures this.facility == facility
      ensures designOptions == InitialOptions(facility.name)
      ensures previewUrl == "" && !isGenerating
      ensures DownloadButtonDisabled()
    {
      this.facility := facility;
      designOptions := InitialOptions(facility.name);
      previewUrl := "";
      isGenerating := false;
    }

    /** `handleIconUpload` with the first selected file, if any. */
    method HandleIconUpload(file: Option<IconFile>)
      modifies this
      ensures designOptions == WithUploadedIcon(old(designOptions), file)
      ensures previewUrl == old(previewUrl) && isGenerating == old(isGenerating)
    {
      designOptions := WithUploadedIcon(designOptions, file);
    }

    /** `resetToDefaults`. */
    method ResetToDefaults()
      modifies this
      ensures designOptions == DefaultOptions(facility.name)
      ensures InSliderRanges(designOptions)
      ensures previewUrl == old(previewUrl) && isGenerating == old(isGenerating)
    {
      designOptions := DefaultOptions(facility.name);
      SliderRanges(facility.name);
    }

    /** `downloadSign`: without a preview nothing happens; otherwise the file
        name of the download is returned and the generating flag ends cleared. */
    method DownloadSign() returns (download: Option<string>)
      modifies this
      ensures old(previewUrl) == "" ==> download == None && isGenerating == old(isGenerating)
      ensures old(previewUrl) != "" ==> download == Some(DownloadName(facility.name)) && !isGenerating
      ensures designOptions == old(designOptions) && previewUrl == old(previewUrl)
      ensures download.Some? <==> old(previewUrl) != ""
      ensures !old(DownloadButtonDisabled()) ==> download.Some?
      ensures download.Some? ==> !DownloadButtonDisabled()
    {
      if previewUrl == "" {
        return None;
      }
      isGenerating := true;
      download := Some(DownloadName(facility.name));
      isGenerating := false;
    }
  }
}
