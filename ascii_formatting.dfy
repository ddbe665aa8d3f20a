/**
 * ANSI colour escapes and 24-bit colour packing (src/asciiFormatting.ts).
 * Colour components are JavaScript numbers, taken as reals; a packed colour is an integral
 * number. For an integral number, JavaScript's `(a & 0xff0000) >> 16`, `(a & 0x00ff00) >> 8`
 * and `a & 0xff` (which act on the two's complement of `a` modulo 2^32) pick the same bits as
 * the Euclidean divisions and remainders below.
 */
module AsciiFormatting {
  import opened Text
  import Utils

  const Esc: char := '\U{1B}'

  /** Bits 16..23 of a packed colour. */
  function RedOf(hex: int): (c: nat)
    ensures c <= 255
  {
    (hex % 0x100_0000) / 0x1_0000
  }

  /** Bits 8..15 of a packed colour. */
  function GreenOf(hex: int): (c: nat)
    ensures c <= 255
  {
    (hex % 0x1_0000) / 0x100
  }

  /** Bits 0..7 of a packed colour. */
  function BlueOf(hex: int): (c: nat)
    ensures c <= 255
  {
    hex % 0x100
  }

  /** `clamp(value, 0, 255, true)`: the component as an integer in [0, 255]. */
  function Channel(value: real): (c: nat)
    ensures c <= 255
    ensures value < 0.0 ==> c == 0
    ensures value >= 255.0 ==> c == 255
    ensures 0.0 <= value < 256.0 ==> c == value.Floor
  {
    Utils.Clamp(value, 0.0, 255.0, true).Floor
  }

  /** A channel given as an integer in [0, 255] is taken as it is. */
  lemma ChannelOfByte(n: nat)
    requires n <= 255
    ensures Channel(n as real) == n
  {
    Utils.FloorUnique(n as real, n);
  }

  /** `[r, g, b].map(clamp...).join(";")`. */
  function ChannelList(r: real, g: real, b: real): (s: string)
    ensures s == NatToString(Channel(r)) + ";" + NatToString(Channel(g)) + ";" + NatToString(Channel(b))
  {
    var parts := [NatToString(Channel(r)), NatToString(Channel(g)), NatToString(Channel(b))];
    assert parts[1..][1..] == [parts[2]];
    assert Join(parts[1..], ";") == parts[1] + ";" + parts[2];
    Join(parts, ";")
  }

  /** `background(r, g, b)`: the 24-bit background colour escape. */
  function Background(r: real, g: real, b: real): (s: string)
    ensures s == [Esc] + "[48;2;" + NatToString(Channel(r)) + ";" + NatToString(Channel(g)) + ";"
                 + NatToString(Channel(b)) + "m"
  {
    [Esc] + "[48;2;" + ChannelList(r, g, b) + "m"
  }

  /** `background(hex)`: the same escape, showing the three bytes of a packed colour in decimal. */
  function BackgroundHex(hex: int): (s: string)
    ensures s == [Esc] + "[48;2;" + NatToString(RedOf(hex)) + ";" + NatToString(GreenOf(hex)) + ";"
                 + NatToString(BlueOf(hex)) + "m"
  {
    ChannelOfByte(RedOf(hex));
    ChannelOfByte(GreenOf(hex));
    ChannelOfByte(BlueOf(hex));
    Background(RedOf(hex) as real, GreenOf(hex) as real, BlueOf(hex) as real)
  }

  /** `background.default`: reset the background colour. */
  const BackgroundDefault: string := [Esc] + "[49m"

  /** `foreground(r, g, b)`: the 24-bit foreground colour escape. */
  function Foreground(r: real, g: real, b: real): (s: string)
    ensures s == [Esc] + "[38;2;" + NatToString(Channel(r)) + ";" + NatToString(Channel(g)) + ";"
                 + NatToString(Channel(b)) + "m"
  {
    [Esc] + "[38;2;" + ChannelList(r, g, b) + "m"
  }

  /** `foreground(hex)`: the foreground escape for the three bytes of a packed colour, in decimal. */
  function ForegroundHex(hex: int): (s: string)
    ensures s == [Esc] + "[38;2;" + NatToString(RedOf(hex)) + ";" + NatToString(GreenOf(hex)) + ";"
                 + NatToString(BlueOf(hex)) + "m"
  {
    ChannelOfByte(RedOf(hex));
    ChannelOfByte(GreenOf(hex));
    ChannelOfByte(BlueOf(hex));
    Foreground(RedOf(hex) as real, GreenOf(hex) as real, BlueOf(hex) as real)
  }

  /** `foreground.default`: reset the foreground colour. */
  const ForegroundDefault: string := [Esc] + "[39m"

  /** `styles.bright` and `styles.noBright`. */
  const Bright: string := [Esc] + "[1m"
  const NoBright: string := [Esc] + "[22m"

  /** `rgbToHexDecimal(red, green, blue)`: the clamped channels packed into 24 bits. */
  function RgbToHexDecimal(red: real := 0.0, green: real := 0.0, blue: real := 0.0): (hex: int)
    ensures 0 <= hex <= 0xFF_FFFF
    ensures RedOf(hex) == Channel(red) && GreenOf(hex) == Channel(green) && BlueOf(hex) == Channel(blue)
  {
    var r, g, b := Channel(red), Channel(green), Channel(blue);
    PackUnpack(r, g, b);
    r * 0x1_0000 + g * 0x100 + b
  }

  /** Unpacking `r << 16 + g << 8 + b` gives back each byte. */
  lemma PackUnpack(r: nat, g: nat, b: nat)
    requires r <= 255 && g <= 255 && b <= 255
    ensures var hex := r * 0x1_0000 + g * 0x100 + b;
      RedOf(hex) == r && GreenOf(hex) == g && BlueOf(hex) == b
  {
    var hex := r * 0x1_0000 + g * 0x100 + b;
    assert hex % 0x100_0000 == hex;
    assert hex % 0x1_0000 == g * 0x100 + b;
    assert hex % 0x100 == b;
  }

  /** `getColorBrightness(hex)`: perceived brightness (0.299 R + 0.587 G + 0.114 B), in [0, 255]. */
  function GetColorBrightness(hex: int): (v: real)
    ensures 0.0 <= v <= 255.0
    ensures hex % 0x100_0000 == 0 ==> v == 0.0
    ensures hex % 0x100_0000 == 0xFF_FFFF ==> v == 255.0
  {
    ChannelsLow24(hex);
    (RedOf(hex) * 299 + GreenOf(hex) * 587 + BlueOf(hex) * 114) as real / 1000.0
  }

  /** Only the low 24 bits of a packed colour reach the escape. */
  lemma BackgroundHexLow24(hex: int)
    ensures BackgroundHex(hex) == BackgroundHex(hex % 0x100_0000)
    ensures ForegroundHex(hex) == ForegroundHex(hex % 0x100_0000)
  {
    ChannelsLow24(hex);
  }

  /** The three channels depend on the low 24 bits alone. */
  lemma ChannelsLow24(hex: int)
    ensures var low := hex % 0x100_0000;
      RedOf(hex) == RedOf(low) && GreenOf(hex) == GreenOf(low) && BlueOf(hex) == BlueOf(low)
  {
    var q := hex / 0x100_0000;
    var low := hex % 0x100_0000;
    assert hex == q * 0x100_0000 + low;
    assert low % 0x100_0000 == low;
    var q16, r16 := low / 0x1_0000, low % 0x1_0000;
    assert hex == (q * 0x100 + q16) * 0x1_0000 + r16;
    ModUnique16(hex, q * 0x100 + q16, r16);
    var q8, r8 := low / 0x100, low % 0x100;
    assert hex == (q * 0x1_0000 + q8) * 0x100 + r8;
    ModUnique8(hex, q * 0x1_0000 + q8, r8);
  }

  /** The remainder modulo 2^16 is the one `R` in range with `x == Q * 2^16 + R`. */
  lemma ModUnique16(x: int, Q: int, R: int)
    requires x == Q * 0x1_0000 + R && 0 <= R < 0x1_0000
    ensures x % 0x1_0000 == R
  {
  }

  /** The remainder modulo 2^8 is the one `R` in range with `x == Q * 2^8 + R`. */
  lemma ModUnique8(x: int, Q: int, R: int)
    requires x == Q * 0x100 + R && 0 <= R < 0x100
    ensures x % 0x100 == R
  {
  }

  /** Packing then writing the escape for the packed value is writing the escape for the channels. */
  lemma BackgroundHexOfPacked(r: real, g: real, b: real)
    ensures BackgroundHex(RgbToHexDecimal(r, g, b)) == Background(r, g, b)
    ensures ForegroundHex(RgbToHexDecimal(r, g, b)) == Foreground(r, g, b)
  {
    ChannelOfByte(Channel(r));
    ChannelOfByte(Channel(g));
    ChannelOfByte(Channel(b));
  }

  /** Two background escapes are equal exactly when the clamped channels are. */
  lemma BackgroundInjective(r: real, g: real, b: real, r': real, g': real, b': real)
    ensures Background(r, g, b) == Background(r', g', b')
        <==> Channel(r) == Channel(r') && Channel(g) == Channel(g') && Channel(b) == Channel(b')
  {
    if Background(r, g, b) == Background(r', g', b') {
      var prefix := [Esc] + "[48;2;";
      var x := ChannelList(r, g, b) + "m";
      var y := ChannelList(r', g', b') + "m";
      assert Background(r, g, b) == prefix + x;
      assert Background(r', g', b') == prefix + y;
      assert x == (prefix + x)[|prefix|..];
      assert y == (prefix + y)[|prefix|..];
      DigitTriple(NatToString(Channel(r)), NatToString(Channel(g)), NatToString(Channel(b)),
                  NatToString(Channel(r')), NatToString(Channel(g')), NatToString(Channel(b')));
      NatToStringInjective(Channel(r), Channel(r'));
      NatToStringInjective(Channel(g), Channel(g'));
      NatToStringInjective(Channel(b), Channel(b'));
    }
  }

  predicate AllDigits(s: string) { forall i :: 0 <= i < |s| ==> IsDigit(s[i]) }

  /** `x;y;zm` with decimal runs `x`, `y`, `z` determines the three runs. */
  lemma DigitTriple(x: string, y: string, z: string, x': string, y': string, z': string)
    requires AllDigits(x) && AllDigits(y) && AllDigits(z) && AllDigits(x') && AllDigits(y') && AllDigits(z')
    requires x + ";" + y + ";" + z + "m" == x' + ";" + y' + ";" + z' + "m"
    ensures x == x' && y == y' && z == z'
  {
    var tail, tail' := z + "m", z' + "m";
    var rest, rest' := y + [';'] + tail, y' + [';'] + tail';
    assert x + ";" + y + ";" + z + "m" == x + [';'] + rest;
    assert x' + ";" + y' + ";" + z' + "m" == x' + [';'] + rest';
    DigitsBeforeSeparator(x, rest, x', rest', ';');
    DigitsBeforeSeparator(y, tail, y', tail', ';');
    assert z + ['m'] + "" == tail && z' + ['m'] + "" == tail';
    DigitsBeforeSeparator(z, "", z', "", 'm');
  }

  /** A run of digits ended by a non-digit separator is recovered unambiguously. */
  lemma DigitsBeforeSeparator(a: string, rest: string, a': string, rest': string, sep: char)
    requires !IsDigit(sep) && AllDigits(a) && AllDigits(a')
    requires a + [sep] + rest == a' + [sep] + rest'
    ensures a == a' && rest == rest'
  {
    var s := a + [sep] + rest;
    FirstIndexAfterRun(a, rest, sep);
    FirstIndexAfterRun(a', rest', sep);
    assert a == s[..|a|];
    assert a' == s[..|a'|];
    assert rest == s[|a| + 1..];
    assert rest' == s[|a'| + 1..];
  }

  /** Position of the first `sep` in `s`, or `|s|` when there is none. */
  function FirstIndexOf(s: string, sep: char): (k: nat)
    ensures k <= |s|
  {
    if |s| == 0 || s[0] == sep then 0 else 1 + FirstIndexOf(s[1..], sep)
  }

  lemma {:induction false} FirstIndexAfterRun(a: string, rest: string, sep: char)
    requires forall i :: 0 <= i < |a| ==> a[i] != sep
    ensures FirstIndexOf(a + [sep] + rest, sep) == |a|
  {
    if |a| > 0 {
      assert (a + [sep] + rest)[1..] == a[1..] + [sep] + rest;
      FirstIndexAfterRun(a[1..], rest, sep);
    }
  }
}
