/**
 * The logger's pure parts (src/logger.ts): topic colours, header strings, argument escaping,
 * topic lists and the rule that decides which sink receives a message. The console and
 * inspector calls themselves are not modelled; `Output` returns the calls it would make.
 */
module Logging {
  import opened Wrappers
  import opened Text
  import opened AsciiFormatting
  import Environment

  // ---------------------------------------------------------------------------
  // Topic colours

  /** Offset basis and prime of 32-bit FNV-1a. */
  const FnvOffsetBasis: bv32 := 0x811C_9DC5
  const FnvPrime: bv32 := 0x0100_0193

  /** One FNV-1a step: `imul(hash ^ unit, 0x01000193)`, arithmetic modulo 2^32. */
  function FnvStep(hash: bv32, unit: int): bv32
    requires 0 <= unit < 0x1_0000
  {
    (hash ^ (unit as bv32)) * FnvPrime
  }

  /** FNV-1a over a sequence of UTF-16 code units, starting from `hash`. */
  function Fnv1a(hash: bv32, units: seq<int>): bv32
    requires forall k :: 0 <= k < |units| ==> 0 <= units[k] < 0x1_0000
    decreases |units|
  {
    if |units| == 0 then hash else Fnv1a(FnvStep(hash, units[0]), units[1..])
  }

  /** Hashing is incremental: hashing `a + b` is hashing `b` from the hash of `a`. */
  lemma {:induction false} Fnv1aAppend(hash: bv32, a: seq<int>, b: seq<int>)
    requires forall k :: 0 <= k < |a| ==> 0 <= a[k] < 0x1_0000
    requires forall k :: 0 <= k < |b| ==> 0 <= b[k] < 0x1_0000
    ensures Fnv1a(hash, a + b) == Fnv1a(Fnv1a(hash, a), b)
    decreases |a|
  {
    if |a| > 0 {
      assert (a + b)[0] == a[0];
      assert (a + b)[1..] == a[1..] + b;
      Fnv1aAppend(FnvStep(hash, a[0]), a[1..], b);
    } else {
      assert a + b == b;
    }
  }

  /** The colour of a topic text: the low 24 bits of FNV-1a over its UTF-16 code units. */
  function ColorForString(s: string): (color: int)
    ensures 0 <= color <= 0xFF_FFFF
  {
    (Fnv1a(FnvOffsetBasis, Utf16(s)) as int) % 0x100_0000
  }

  /** `LogTopic.getColorForString`: the hashing loop over `charCodeAt(index)`. */
  method GetColorForString(inputString: string) returns (color: int)
    ensures color == ColorForString(inputString)
    ensures 0 <= color <= 0xFF_FFFF
  {
    var units := Utf16(inputString);
    var hash := FnvOffsetBasis;
    var index := 0;
    while index < |units|
      invariant 0 <= index <= |units|
      invariant Fnv1a(hash, units[index..]) == Fnv1a(FnvOffsetBasis, units)
    {
      assert units[index..][1..] == units[index + 1..];
      hash := FnvStep(hash, units[index]);
      index := index + 1;
    }
    color := (hash as int) % 0x100_0000;
  }

  /** `LogTopicColorOptions`: either colour may be left out. */
  datatype ColorOptions = ColorOptions(background: Option<int>, foreground: Option<int>)

  const NoColors := ColorOptions(None, None)

  /** `Required<LogTopicColorOptions>`. */
  datatype Colors = Colors(background: int, foreground: int)

  /** Black text on a bright background (brightness above 128), white text otherwise. */
  function ContrastingForeground(background: int): (fg: int)
    ensures fg == 0x00_0000 || fg == 0xFF_FFFF
    ensures fg == 0 <==> GetColorBrightness(background) > 128.0
  {
    if GetColorBrightness(background) > 128.0 then 0x00_0000 else 0xFF_FFFF
  }

  /** `LogTopic.getColorOptions`: supplied colours are kept, missing ones are derived. */
  function GetColorOptions(text: string, colors: ColorOptions := NoColors): (r: Colors)
    ensures colors.background.Some? ==> r.background == colors.background.value
    ensures colors.background.None? ==> r.background == ColorForString(text)
    ensures colors.foreground.Some? ==> r.foreground == colors.foreground.value
    ensures colors.foreground.None? ==> r.foreground == ContrastingForeground(r.background)
  {
    var background := colors.background.GetOr(ColorForString(text));
    var foreground := colors.foreground.GetOr(ContrastingForeground(background));
    Colors(background, foreground)
  }

  /** A `LogTopic`: its text and the two colours fixed when it was constructed. */
  datatype LogTopic = LogTopic(text: string, background: int, foreground: int)

  /** `new LogTopic(text, colors)`. */
  function NewLogTopic(text: string, colors: ColorOptions := NoColors): (t: LogTopic)
    ensures t.text == text
    ensures Colors(t.background, t.foreground) == GetColorOptions(text, colors)
  {
    var c := GetColorOptions(text, colors);
    LogTopic(text, c.background, c.foreground)
  }

  // ---------------------------------------------------------------------------
  // Header strings

  /**
   * `LogTopic.formatHeaderString`: the text padded with one space each side; in colour, the
   * padded text is preceded by the background, the foreground and `bright`, and followed by
   * `noBright` and the two resets.
   */
  function FormatHeaderString(text: string, colors: Option<ColorOptions>): (r: string)
    ensures colors.None? ==> r == " " + text + " "
    ensures colors.Some? ==>
              var c := GetColorOptions(text, colors.value);
              var before := BackgroundHex(c.background) + ForegroundHex(c.foreground) + Bright;
              var after := NoBright + ForegroundDefault + BackgroundDefault;
              |r| == |before| + |text| + 2 + |after| &&
              r[..|before|] == before && r[|before|..|r| - |after|] == " " + text + " " && r[|r| - |after|..] == after
  {
    var rawHeaderString := " " + text + " ";
    match colors
    case None => rawHeaderString
    case Some(options) =>
      var c := GetColorOptions(text, options);
      Framed(BackgroundHex(c.background), ForegroundHex(c.foreground), Bright, rawHeaderString,
             NoBright, ForegroundDefault, BackgroundDefault);
      BackgroundHex(c.background) + (ForegroundHex(c.foreground) + (Bright + (rawHeaderString
        + (NoBright + (ForegroundDefault + BackgroundDefault)))))
  }

  /** A text between three strings and three more sits between their concatenations. */
  lemma Framed(e1: string, e2: string, e3: string, mid: string, e4: string, e5: string, e6: string)
    ensures var r := e1 + (e2 + (e3 + (mid + (e4 + (e5 + e6)))));
            var before, after := e1 + e2 + e3, e4 + e5 + e6;
            |r| == |before| + |mid| + |after| &&
            r[..|before|] == before && r[|before|..|r| - |after|] == mid && r[|r| - |after|..] == after
  {
    var before, after := e1 + e2 + e3, e4 + e5 + e6;
    var r := e1 + (e2 + (e3 + (mid + (e4 + (e5 + e6)))));
    assert r == before + mid + after;
  }

  /** `topic.toString(format)`: a formatted topic is drawn in its own stored colours. */
  function TopicToString(topic: LogTopic, format: bool): (s: string)
    ensures !format ==> s == " " + topic.text + " "
  {
    FormatHeaderString(topic.text,
      if format then Some(ColorOptions(Some(topic.background), Some(topic.foreground))) else None)
  }

  /** A formatted topic is drawn in the colours it stored when it was constructed. */
  lemma TopicInStoredColours(topic: LogTopic)
    ensures TopicToString(topic, true) == BackgroundHex(topic.background) + (ForegroundHex(topic.foreground) + (Bright
              + ((" " + topic.text + " ") + (NoBright + (ForegroundDefault + BackgroundDefault)))))
  {
  }

  // ---------------------------------------------------------------------------
  // Levels

  datatype LogLevel = Debug | Log | Info | Warn | Error

  /** The name a level is shown with. */
  function LevelName(level: LogLevel): string
  {
    match level
    case Debug => "DEBUG"
    case Log => "LOG"
    case Info => "INFO"
    case Warn => "WARN"
    case Error => "ERROR"
  }

  /** The background a level is shown on. */
  function LevelBackground(level: LogLevel): int
  {
    match level
    case Debug => RgbToHexDecimal(75.0, 75.0, 75.0)
    case Log => RgbToHexDecimal(175.0, 175.0, 175.0)
    case Info => RgbToHexDecimal(0.0, 150.0, 0.0)
    case Warn => RgbToHexDecimal(220.0, 220.0, 0.0)
    case Error => RgbToHexDecimal(220.0, 0.0, 0.0)
  }

  /** `Logger.levelTopics[level]`: the name, on its background, with the foreground left to contrast. */
  function LevelTopic(level: LogLevel): (t: LogTopic)
    ensures t.text == LevelName(level) && t.background == LevelBackground(level)
    ensures 0 <= t.background <= 0xFF_FFFF
    ensures t.foreground == ContrastingForeground(t.background)
  {
    NewLogTopic(LevelName(level), ColorOptions(Some(LevelBackground(level)), None))
  }

  /** The brightness of a colour packed from three bytes. */
  lemma PackedBrightness(r: nat, g: nat, b: nat)
    requires r <= 255 && g <= 255 && b <= 255
    ensures GetColorBrightness(RgbToHexDecimal(r as real, g as real, b as real)) == (r * 299 + g * 587 + b * 114) as real / 1000.0
  {
    ChannelOfByte(r);
    ChannelOfByte(g);
    ChannelOfByte(b);
  }

  /** LOG and WARN get black text, DEBUG, INFO and ERROR white text. */
  lemma LevelTopicForegrounds(level: LogLevel)
    ensures LevelTopic(level).foreground == if level == Log || level == Warn then 0x00_0000 else 0xFF_FFFF
  {
    assert LevelTopic(level).foreground == ContrastingForeground(LevelBackground(level));
    match level
    case Debug => PackedBrightness(75, 75, 75);
    case Log => PackedBrightness(175, 175, 175);
    case Info => PackedBrightness(0, 150, 0);
    case Warn => PackedBrightness(220, 220, 0);
    case Error => PackedBrightness(220, 0, 0);
  }

  /** The level names are plain text. */
  lemma LevelTextPlain(level: LogLevel)
    ensures NoChar(LevelTopic(level).text, Esc)
  {
    assert LevelTopic(level).text == LevelName(level);
    match level
    case Debug => NamePlain("DEBUG");
    case Log => NamePlain("LOG");
    case Info => NamePlain("INFO");
    case Warn => NamePlain("WARN");
    case Error => NamePlain("ERROR");
  }

  lemma NamePlain(name: string)
    requires name in {"DEBUG", "LOG", "INFO", "WARN", "ERROR"}
    ensures NoChar(name, Esc)
  {
  }

  /** `Logger.dateFormatColorOptions`. */
  const DateFormatColorOptions := ColorOptions(Some(RgbToHexDecimal(100.0, 100.0, 255.0)), None)

  /** Each topic's string, concatenated. */
  function TopicsToString(topics: seq<LogTopic>, format: bool): string
  {
    if |topics| == 0 then "" else TopicToString(topics[0], format) + TopicsToString(topics[1..], format)
  }

  /**
   * `Logger.formatOutputHeaderString`: the date header, the level topic, then each logger topic;
   * unformatted, each of them is its text padded with spaces.
   */
  function FormatOutputHeaderString(dateIso: string, level: LogLevel, topics: seq<LogTopic>, format: bool): (r: string)
    ensures !format ==> r == " " + dateIso + " " + (" " + LevelName(level) + " ") + TopicsToString(topics, false)
  {
    HeaderLine(dateIso, LevelTopic(level), topics, format)
  }

  function HeaderLine(dateIso: string, levelTopic: LogTopic, topics: seq<LogTopic>, format: bool): string
  {
    FormatHeaderString(dateIso, if format then Some(DateFormatColorOptions) else None)
      + (TopicToString(levelTopic, format) + TopicsToString(topics, format))
  }

  // ---------------------------------------------------------------------------
  // What a terminal shows: the colour escapes removed

  /** Drops everything up to and including the first `m` (the end of an SGR escape). */
  function SkipEscape(s: string): (r: string)
    ensures |r| <= |s|
  {
    if |s| == 0 then "" else if s[0] == 'm' then s[1..] else SkipEscape(s[1..])
  }

  /** The visible text of `s`: every `ESC ... m` escape removed. */
  function VisibleText(s: string): string
    decreases |s|
  {
    if |s| == 0 then ""
    else if s[0] == Esc then VisibleText(SkipEscape(s[1..]))
    else [s[0]] + VisibleText(s[1..])
  }

  predicate NoChar(s: string, c: char) { forall i :: 0 <= i < |s| ==> s[i] != c }

  lemma {:induction false} SkipEscapeBody(body: string, rest: string)
    requires NoChar(body, 'm')
    ensures SkipEscape(body + "m" + rest) == rest
  {
    if |body| > 0 {
      assert (body + "m" + rest)[1..] == body[1..] + "m" + rest;
      SkipEscapeBody(body[1..], rest);
    }
  }

  /** An escape `ESC body m` is invisible. */
  lemma VisibleSkipsEscape(body: string, rest: string)
    requires NoChar(body, 'm')
    ensures VisibleText([Esc] + body + "m" + rest) == VisibleText(rest)
  {
    var s := [Esc] + body + "m" + rest;
    assert s[1..] == body + "m" + rest;
    SkipEscapeBody(body, rest);
  }

  /** Text without escape characters is shown as it is. */
  lemma {:induction false} VisiblePlain(text: string, rest: string)
    requires NoChar(text, Esc)
    ensures VisibleText(text + rest) == text + VisibleText(rest)
  {
    if |text| > 0 {
      assert (text + rest)[0] == text[0] != Esc;
      assert (text + rest)[1..] == text[1..] + rest;
      assert NoChar(text[1..], Esc) by {
        forall i | 0 <= i < |text| - 1 ensures text[1..][i] != Esc { assert text[1..][i] == text[i + 1]; }
      }
      VisiblePlain(text[1..], rest);
    } else {
      assert text + rest == rest;
    }
  }

  /** `e` is one escape: `ESC`, a body without `m`, then `m`. */
  predicate IsEscape(e: string)
  {
    |e| >= 2 && e[0] == Esc && e[|e| - 1] == 'm' && NoChar(e[1..|e| - 1], 'm')
  }

  lemma VisibleEscapeThen(e: string, rest: string)
    requires IsEscape(e)
    ensures VisibleText(e + rest) == VisibleText(rest)
  {
    var body := e[1..|e| - 1];
    var x := [Esc] + body + "m";
    assert |x| == |e|;
    forall i | 0 <= i < |e| ensures e[i] == x[i] {
      if 0 < i < |e| - 1 { assert x[i] == body[i - 1]; }
    }
    assert e == x;
    VisibleSkipsEscape(body, rest);
  }

  /** The channel list of an escape holds no `m`. */
  lemma ChannelListNoM(r: real, g: real, b: real)
    ensures NoChar(ChannelList(r, g, b), 'm')
  {
    var digits := ChannelList(r, g, b);
    var x, y, z := NatToString(Channel(r)), NatToString(Channel(g)), NatToString(Channel(b));
    assert digits == x + ";" + y + ";" + z;
    forall i | 0 <= i < |digits| ensures digits[i] != 'm' {
      if i < |x| { assert digits[i] == x[i]; }
      else if i == |x| || i == |x| + 1 + |y| { }
      else if i < |x| + 1 + |y| { assert digits[i] == y[i - |x| - 1]; }
      else { assert digits[i] == z[i - |x| - 2 - |y|]; }
    }
  }

  /** `ESC`, a prefix and a body without `m`, then `m`, is one escape. */
  lemma EscapeOf(prefix: string, body: string)
    requires NoChar(prefix, 'm') && NoChar(body, 'm')
    ensures IsEscape([Esc] + prefix + body + "m")
  {
    var e := [Esc] + prefix + body + "m";
    assert e[1..|e| - 1] == prefix + body;
  }

  /** A colour escape is a single escape. */
  lemma HexEscapes(hex: int)
    ensures IsEscape(BackgroundHex(hex)) && IsEscape(ForegroundHex(hex))
  {
    var r, g, b := RedOf(hex) as real, GreenOf(hex) as real, BlueOf(hex) as real;
    var digits := ChannelList(r, g, b);
    ChannelListNoM(r, g, b);
    EscapeOf("[48;2;", digits);
    EscapeOf("[38;2;", digits);
    assert BackgroundHex(hex) == [Esc] + "[48;2;" + digits + "m";
    assert ForegroundHex(hex) == [Esc] + "[38;2;" + digits + "m";
  }

  /** `bright`, `noBright` and the two resets are single escapes. */
  lemma ConstantEscapes()
    ensures IsEscape(Bright) && IsEscape(NoBright) && IsEscape(ForegroundDefault) && IsEscape(BackgroundDefault)
  {
    assert IsEscape(Bright) by {
      EscapeOf("[1", "");
      assert [Esc] + "[1" + "" + "m" == Bright;
    }
    assert IsEscape(NoBright) by {
      EscapeOf("[22", "");
      assert [Esc] + "[22" + "" + "m" == NoBright;
    }
    assert IsEscape(ForegroundDefault) by {
      EscapeOf("[39", "");
      assert [Esc] + "[39" + "" + "m" == ForegroundDefault;
    }
    assert IsEscape(BackgroundDefault) by {
      EscapeOf("[49", "");
      assert [Esc] + "[49" + "" + "m" == BackgroundDefault;
    }
  }

  /** Escapes around a plain text leave only the text visible. */
  lemma VisibleStyled(e1: string, e2: string, e3: string, raw: string, e4: string, e5: string, e6: string,
                      rest: string)
    requires IsEscape(e1) && IsEscape(e2) && IsEscape(e3) && IsEscape(e4) && IsEscape(e5) && IsEscape(e6)
    requires NoChar(raw, Esc)
    ensures VisibleText((e1 + (e2 + (e3 + (raw + (e4 + (e5 + e6)))))) + rest) == raw + VisibleText(rest)
  {
    var x5 := e5 + e6;
    var x4 := e4 + x5;
    var x3 := raw + x4;
    var x2 := e3 + x3;
    var x1 := e2 + x2;
    ConcatAssoc(e1, x1, rest);
    ConcatAssoc(e2, x2, rest);
    ConcatAssoc(e3, x3, rest);
    ConcatAssoc(raw, x4, rest);
    ConcatAssoc(e4, x5, rest);
    ConcatAssoc(e5, e6, rest);
    VisibleEscapeThen(e6, rest);
    VisibleEscapeThen(e5, e6 + rest);
    VisibleEscapeThen(e4, e5 + (e6 + rest));
    VisiblePlain(raw, e4 + (e5 + (e6 + rest)));
    VisibleEscapeThen(e3, raw + (e4 + (e5 + (e6 + rest))));
    VisibleEscapeThen(e2, e3 + (raw + (e4 + (e5 + (e6 + rest)))));
    VisibleEscapeThen(e1, e2 + (e3 + (raw + (e4 + (e5 + (e6 + rest))))));
  }

  /** A header, coloured or not, shows its padded text, whatever follows it. */
  lemma VisibleHeaderThen(text: string, colors: Option<ColorOptions>, rest: string)
    requires NoChar(text, Esc)
    ensures VisibleText(FormatHeaderString(text, colors) + rest) == " " + text + " " + VisibleText(rest)
  {
    var raw := " " + text + " ";
    assert NoChar(raw, Esc);
    if colors.Some? {
      var c := GetColorOptions(text, colors.value);
      var e1, e2 := BackgroundHex(c.background), ForegroundHex(c.foreground);
      HexEscapes(c.background);
      HexEscapes(c.foreground);
      ConstantEscapes();
      assert FormatHeaderString(text, colors)
          == e1 + (e2 + (Bright + (raw + (NoBright + (ForegroundDefault + BackgroundDefault)))));
      VisibleStyled(e1, e2, Bright, raw, NoBright, ForegroundDefault, BackgroundDefault, rest);
    } else {
      VisiblePlain(raw, rest);
    }
  }

  /** Colouring a header never changes what it shows: the padded text. */
  lemma VisibleHeader(text: string, colors: Option<ColorOptions>)
    requires NoChar(text, Esc)
    ensures VisibleText(FormatHeaderString(text, colors)) == " " + text + " "
  {
    VisibleHeaderThen(text, colors, "");
    assert FormatHeaderString(text, colors) + "" == FormatHeaderString(text, colors);
  }

  predicate PlainTopics(topics: seq<LogTopic>)
  {
    forall i :: 0 <= i < |topics| ==> NoChar(topics[i].text, Esc)
  }

  lemma {:induction false} VisibleTopicsThen(topics: seq<LogTopic>, rest: string)
    requires PlainTopics(topics)
    ensures VisibleText(TopicsToString(topics, true) + rest) == TopicsToString(topics, false) + VisibleText(rest)
  {
    if |topics| > 0 {
      var t := topics[0];
      var more, plainMore := TopicsToString(topics[1..], true), TopicsToString(topics[1..], false);
      assert PlainTopics(topics[1..]) by {
        forall i | 0 <= i < |topics| - 1 ensures NoChar(topics[1..][i].text, Esc) { assert topics[1..][i] == topics[i + 1]; }
      }
      VisibleTopicsThen(topics[1..], rest);
      var opts := Some(ColorOptions(Some(t.background), Some(t.foreground)));
      var head := FormatHeaderString(t.text, opts);
      assert TopicsToString(topics, true) == head + more;
      ConcatAssoc(head, more, rest);
      VisibleHeaderThen(t.text, opts, more + rest);
      var raw := " " + t.text + " ";
      assert TopicsToString(topics, false) == raw + plainMore;
      ConcatAssoc(raw, plainMore, VisibleText(rest));
    } else {
      assert TopicsToString(topics, true) + rest == rest;
    }
  }

  /**
   * A formatted output header shows exactly the unformatted one: the escapes add colour only,
   * when the date and the topic texts hold no escape character.
   */
  lemma VisibleOutputHeader(dateIso: string, level: LogLevel, topics: seq<LogTopic>)
    requires NoChar(dateIso, Esc) && PlainTopics(topics)
    ensures VisibleText(FormatOutputHeaderString(dateIso, level, topics, true))
         == FormatOutputHeaderString(dateIso, level, topics, false)
  {
    LevelTextPlain(level);
    VisibleHeaderLine(dateIso, LevelTopic(level), topics);
  }

  lemma VisibleHeaderLine(dateIso: string, lt: LogTopic, topics: seq<LogTopic>)
    requires NoChar(dateIso, Esc) && NoChar(lt.text, Esc) && PlainTopics(topics)
    ensures VisibleText(HeaderLine(dateIso, lt, topics, true)) == HeaderLine(dateIso, lt, topics, false)
  {
    VisibleHeaderParts(dateIso, Some(DateFormatColorOptions), lt, topics);
  }

  /** The topics alone show their unformatted strings. */
  lemma VisibleTopics(topics: seq<LogTopic>)
    requires PlainTopics(topics)
    ensures VisibleText(TopicsToString(topics, true)) == TopicsToString(topics, false)
  {
    var c := TopicsToString(topics, true);
    VisibleTopicsThen(topics, "");
    assert c + "" == c;
    assert VisibleText("") == "";
    assert TopicsToString(topics, false) + "" == TopicsToString(topics, false);
  }

  lemma VisibleHeaderParts(dateIso: string, dateOpts: Option<ColorOptions>, lt: LogTopic, topics: seq<LogTopic>)
    requires NoChar(dateIso, Esc) && NoChar(lt.text, Esc) && PlainTopics(topics)
    ensures VisibleText(FormatHeaderString(dateIso, dateOpts) + (TopicToString(lt, true) + TopicsToString(topics, true)))
         == FormatHeaderString(dateIso, None) + (TopicToString(lt, false) + TopicsToString(topics, false))
  {
    var levelOpts := Some(ColorOptions(Some(lt.background), Some(lt.foreground)));
    var b := TopicToString(lt, true);
    var c := TopicsToString(topics, true);
    VisibleTopics(topics);
    assert b == FormatHeaderString(lt.text, levelOpts);
    VisibleHeaderThen(lt.text, levelOpts, c);
    VisibleHeaderThen(dateIso, dateOpts, b + c);
    assert FormatHeaderString(dateIso, None) == " " + dateIso + " ";
  }

  // ---------------------------------------------------------------------------
  // Arguments

  /** A value passed to a logging call: a string, or anything else. */
  datatype LogArgument<T> = StringArgument(s: string) | OtherArgument(value: T)

  /** `value.replace(/%/g, "%%")`. */
  function DoublePercent(s: string): (r: string)
    ensures |r| >= |s|
  {
    if |s| == 0 then "" else (if s[0] == '%' then "%%" else [s[0]]) + DoublePercent(s[1..])
  }

  /** How a console format string shows a text: `%%` prints one `%`. */
  function PrintedPercent(s: string): string
  {
    if |s| == 0 then ""
    else if |s| >= 2 && s[0] == '%' && s[1] == '%' then "%" + PrintedPercent(s[2..])
    else [s[0]] + PrintedPercent(s[1..])
  }

  /** A `%`-doubled text, read as a console format string, shows as the original text. */
  lemma {:induction false} DoublePercentPrintsOriginal(s: string)
    ensures PrintedPercent(DoublePercent(s)) == s
  {
    if |s| > 0 {
      DoublePercentPrintsOriginal(s[1..]);
      var d := DoublePercent(s);
      if s[0] == '%' {
        assert d == "%%" + DoublePercent(s[1..]);
        assert d[2..] == DoublePercent(s[1..]);
      } else {
        assert d == [s[0]] + DoublePercent(s[1..]);
        assert d[1..] == DoublePercent(s[1..]);
      }
    }
  }

  /** `Logger.escapeArguments`: only a string first argument of a multi-argument call is escaped. */
  function EscapeArguments<T>(data: seq<LogArgument<T>>): (r: seq<LogArgument<T>>)
    ensures |r| == |data|
    ensures forall i :: 0 < i < |data| ==> r[i] == data[i]
    ensures |data| > 0 ==> r[0] == (if |data| > 1 && data[0].StringArgument?
                                    then StringArgument(DoublePercent(data[0].s)) else data[0])
  {
    seq(|data|, i requires 0 <= i < |data| =>
      if i <= 0 && |data| > 1 && data[i].StringArgument? then StringArgument(DoublePercent(data[i].s)) else data[i])
  }

  // ---------------------------------------------------------------------------
  // Loggers

  /** A `Logger`: its list of topics, fixed at construction. */
  datatype Logger = Logger(topics: seq<LogTopic>)

  /** `Logger.rootLogger`. */
  const RootLogger := Logger([])

  /** An argument of `addTopics`: a text or a ready topic. */
  datatype TopicArgument = TopicText(text: string) | Topic(topic: LogTopic)

  function ToTopic(value: TopicArgument): LogTopic
  {
    match value
    case TopicText(text) => NewLogTopic(text)
    case Topic(topic) => topic
  }

  /** `logger.addTopics(...topics)`: a new logger with the given topics appended, texts made into topics. */
  function AddTopics(logger: Logger, topics: seq<TopicArgument>): (r: Logger)
    ensures |r.topics| == |logger.topics| + |topics|
    ensures r.topics[..|logger.topics|] == logger.topics
    ensures forall i :: 0 <= i < |topics| ==>
      r.topics[|logger.topics| + i] == (match topics[i]
                                        case TopicText(text) => NewLogTopic(text)
                                        case Topic(topic) => topic)
  {
    Logger(logger.topics + seq(|topics|, i requires 0 <= i < |topics| => ToTopic(topics[i])))
  }

  // ---------------------------------------------------------------------------
  // Output

  /** The five settings read from the environment at start-up, and whether an inspector is attached. */
  datatype LoggerSettings = LoggerSettings(
    formattingEnabled: bool,
    showDebugLogs: bool,
    debuggerOnline: bool,
    debuggerFormattingEnabled: bool,
    debuggerShowDebugLogs: bool)

  /** The settings as src/logger.ts computes them; the debugger ones follow the logger ones only on `auto`. */
  function SettingsFromEnv(env: Environment.Env, debuggerOnline: bool): (s: LoggerSettings)
    ensures s.debuggerOnline == debuggerOnline
    ensures s.formattingEnabled == Environment.GetEnvAsBoolean(env, "LOGGER_FORMATTING_ENABLED")
    ensures s.showDebugLogs == Environment.GetEnvAsBoolean(env, "LOGGER_SHOW_DEBUG_LOGS")
    ensures s.debuggerFormattingEnabled <==>
              "DEBUGGER_FORMATTING_ENABLED" in env &&
              (LowerAscii(env["DEBUGGER_FORMATTING_ENABLED"]) == "true" ||
               (LowerAscii(env["DEBUGGER_FORMATTING_ENABLED"]) == "auto" && s.formattingEnabled))
    ensures s.debuggerShowDebugLogs <==>
              "DEBUGGER_SHOW_DEBUG_LOGS" in env &&
              (LowerAscii(env["DEBUGGER_SHOW_DEBUG_LOGS"]) == "true" ||
               (LowerAscii(env["DEBUGGER_SHOW_DEBUG_LOGS"]) == "auto" && s.showDebugLogs))
  {
    var formatting := Environment.GetEnvAsBoolean(env, "LOGGER_FORMATTING_ENABLED");
    var showDebug := Environment.GetEnvAsBoolean(env, "LOGGER_SHOW_DEBUG_LOGS");
    LoggerSettings(
      formatting, showDebug, debuggerOnline,
      Environment.GetEnvAsBoolean(env, "DEBUGGER_FORMATTING_ENABLED", Some(formatting)),
      Environment.GetEnvAsBoolean(env, "DEBUGGER_SHOW_DEBUG_LOGS", Some(showDebug)))
  }

  /** One call `console[level](header, ...data)`. */
  datatype ConsoleCall<T> = ConsoleCall(level: LogLevel, header: string, data: seq<LogArgument<T>>)

  /** The calls one `output` makes: to the process console and to the inspector console. */
  datatype Emission<T> = Emission(console: Option<ConsoleCall<T>>, debugger: Option<ConsoleCall<T>>)

  /** The console half of `output`: debug messages only when debug logs are shown. */
  function ConsoleSink<T>(level: LogLevel, escaped: seq<LogArgument<T>>,
                          settings: LoggerSettings, headerString: string): (c: Option<ConsoleCall<T>>)
    ensures c.Some? <==> level != Debug || settings.showDebugLogs
    ensures c.Some? ==> c.value == ConsoleCall(level, headerString, escaped)
  {
    if level != Debug || settings.showDebugLogs then Some(ConsoleCall(level, headerString, escaped)) else None
  }

  /**
   * The inspector half of `output`: only when it is attached and its own setting allows debug
   * messages; the console's header is reused when both sinks format alike.
   */
  function DebuggerSink<T>(logger: Logger, level: LogLevel, escaped: seq<LogArgument<T>>,
                           settings: LoggerSettings, dateIso: string, headerString: string): (c: Option<ConsoleCall<T>>)
    requires headerString == FormatOutputHeaderString(dateIso, level, logger.topics, settings.formattingEnabled)
    ensures c.Some? <==> settings.debuggerOnline && (level != Debug || settings.debuggerShowDebugLogs)
    ensures c.Some? ==>
              c.value == ConsoleCall(level, FormatOutputHeaderString(dateIso, level, logger.topics,
                                                                     settings.debuggerFormattingEnabled), escaped)
  {
    var debuggerHeader := if settings.formattingEnabled != settings.debuggerFormattingEnabled
                          then FormatOutputHeaderString(dateIso, level, logger.topics, settings.debuggerFormattingEnabled)
                          else headerString;
    if settings.debuggerOnline && (level != Debug || settings.debuggerShowDebugLogs)
    then Some(ConsoleCall(level, debuggerHeader, escaped)) else None
  }

  /**
   * `logger.output(level, ...data)` at the moment `dateIso`: debug messages reach the console only
   * when debug logs are shown, and the inspector only when it is attached and its own setting allows;
   * each sink gets the header in its own formatting.
   */
  function Output<T>(logger: Logger, level: LogLevel, data: seq<LogArgument<T>>,
                     settings: LoggerSettings, dateIso: string): (e: Emission<T>)
    ensures e.console.Some? <==> level != Debug || settings.showDebugLogs
    ensures e.debugger.Some? <==> settings.debuggerOnline && (level != Debug || settings.debuggerShowDebugLogs)
    ensures e.console.Some? ==>
              e.console.value == ConsoleCall(level, FormatOutputHeaderString(dateIso, level, logger.topics,
                                                                             settings.formattingEnabled),
                                             EscapeArguments(data))
    ensures e.debugger.Some? ==>
              e.debugger.value == ConsoleCall(level, FormatOutputHeaderString(dateIso, level, logger.topics,
                                                                              settings.debuggerFormattingEnabled),
                                              EscapeArguments(data))
  {
    var escaped := EscapeArguments(data);
    var headerString := FormatOutputHeaderString(dateIso, level, logger.topics, settings.formattingEnabled);
    Emission(ConsoleSink(level, escaped, settings, headerString),
             DebuggerSink(logger, level, escaped, settings, dateIso, headerString))
  }

  // ---------------------------------------------------------------------------
  // What the console prints for one call

  /**
   * No argument-consuming specifier (`%s`, `%d`, `%i`, `%f`, `%j`, `%o`, `%O`, `%c`) in a
   * format string, reading `%%` pairs from left to right.
   */
  predicate SpecifierFree(s: string)
    decreases |s|
  {
    if |s| == 0 then true
    else if |s| >= 2 && s[0] == '%' && s[1] == '%' then SpecifierFree(s[2..])
    else (s[0] == '%' && |s| >= 2 ==> s[1] !in "sdifjoOc") && SpecifierFree(s[1..])
  }

  /** How the console shows an argument after the format string: a string as it is. */
  function ShowArgument<T>(a: LogArgument<T>, show: T -> string): string
  {
    match a
    case StringArgument(s) => s
    case OtherArgument(v) => show(v)
  }

  /** Each argument after the format string, preceded by a space. */
  function ShownArguments<T>(args: seq<LogArgument<T>>, show: T -> string): string
  {
    if |args| == 0 then "" else " " + ShowArgument(args[0], show) + ShownArguments(args[1..], show)
  }

  /**
   * `util.format(fmt, ...args)`, which `console[level]` prints: with no further argument the
   * format string is returned as it is; otherwise `%%` in it shows as `%` and the arguments
   * follow. `show` stands for `inspect`.
   */
  function PrintedLine<T>(fmt: string, args: seq<LogArgument<T>>, show: T -> string): string
    requires |args| > 0 ==> SpecifierFree(fmt)
  {
    if |args| == 0 then fmt else PrintedPercent(fmt) + ShownArguments(args, show)
  }

  /** A text without `%` is a specifier-free format string that shows as itself. */
  lemma {:induction false} NoPercentPrinted(s: string)
    requires NoChar(s, '%')
    ensures SpecifierFree(s) && PrintedPercent(s) == s
  {
    if |s| > 0 {
      assert NoChar(s[1..], '%');
      NoPercentPrinted(s[1..]);
    }
  }

  /** A `%`-doubled text holds no specifier. */
  lemma {:induction false} DoublePercentSpecifierFree(s: string)
    ensures SpecifierFree(DoublePercent(s))
  {
    if |s| > 0 {
      DoublePercentSpecifierFree(s[1..]);
      var d := DoublePercent(s);
      if s[0] == '%' {
        assert d == "%%" + DoublePercent(s[1..]);
        assert d[2..] == DoublePercent(s[1..]);
      } else {
        assert d == [s[0]] + DoublePercent(s[1..]);
        assert d[1..] == DoublePercent(s[1..]);
      }
    }
  }

  /** Escaping a string followed by more arguments doubles its `%` and leaves the rest alone. */
  lemma EscapedFirstString<T>(s: string, rest: seq<LogArgument<T>>)
    requires |rest| > 0
    ensures EscapeArguments([StringArgument(s)] + rest) == [StringArgument(DoublePercent(s))] + rest
  {
    var data := [StringArgument(s)] + rest;
    var escaped := EscapeArguments(data);
    forall i | 0 <= i < |escaped| ensures escaped[i] == ([StringArgument(DoublePercent(s))] + rest)[i] {
      if i > 0 {
        assert data[i] == rest[i - 1];
      }
    }
  }

  /**
   * The call `output` makes puts the header first, so the header is the format string and an
   * escaped first data argument is shown with its `%` doubled.
   */
  lemma EscapedFirstArgumentShown<T>(header: string, s: string, rest: seq<LogArgument<T>>, show: T -> string)
    requires SpecifierFree(header) && |rest| > 0
    ensures PrintedLine(header, EscapeArguments([StringArgument(s)] + rest), show)
         == PrintedPercent(header) + " " + DoublePercent(s) + ShownArguments(rest, show)
  {
    var p, d, more := PrintedPercent(header), DoublePercent(s), ShownArguments(rest, show);
    assert ShownArguments(EscapeArguments([StringArgument(s)] + rest), show) == " " + d + more by {
      ShownEscaped(s, rest, show);
    }
    ConcatAssoc(p, " " + d, more);
    ConcatAssoc(p, " ", d);
  }

  /** The arguments after the format string, the first one escaped. */
  lemma ShownEscaped<T>(s: string, rest: seq<LogArgument<T>>, show: T -> string)
    requires |rest| > 0
    ensures ShownArguments(EscapeArguments([StringArgument(s)] + rest), show)
         == " " + DoublePercent(s) + ShownArguments(rest, show)
  {
    var escaped := [StringArgument(DoublePercent(s))] + rest;
    EscapedFirstString(s, rest);
    assert escaped[1..] == rest;
  }

  lemma HundredPercentDoubled()
    ensures DoublePercent("100%") == "100%%"
  {
    assert DoublePercent("%") == "%%" + DoublePercent("");
    assert DoublePercent("0%") == "0" + DoublePercent("%");
    assert DoublePercent("00%") == "0" + DoublePercent("0%");
    assert DoublePercent("100%") == "1" + DoublePercent("00%");
  }

  /** `logger.info("100%", "x")` shows `100%%` on the console. */
  lemma PercentShownDoubled(show: int -> string)
    ensures PrintedLine("H", EscapeArguments([StringArgument("100%"), StringArgument("x")]), show) == "H 100%% x"
  {
    var rest: seq<LogArgument<int>> := [StringArgument("x")];
    assert SpecifierFree("H") && PrintedPercent("H") == "H" by {
      assert NoChar("H", '%');
      NoPercentPrinted("H");
    }
    calc {
      PrintedLine("H", EscapeArguments([StringArgument("100%"), StringArgument("x")]), show);
      { assert [StringArgument("100%")] + rest == [StringArgument("100%"), StringArgument("x")];
        EscapedFirstArgumentShown("H", "100%", rest, show); }
      PrintedPercent("H") + " " + DoublePercent("100%") + ShownArguments(rest, show);
      { HundredPercentDoubled();
        assert ShownArguments(rest, show) == " x" by { assert rest[1..] == []; } }
      "H" + " " + "100%%" + " x";
      "H 100%% x";
    }
  }

  /**
   * The call as intended: the format string (the header) is `%`-escaped whenever arguments
   * follow it, and the data is passed on untouched.
   */
  function IntendedConsoleCall<T>(level: LogLevel, header: string, data: seq<LogArgument<T>>): (c: ConsoleCall<T>)
    ensures c.data == data && c.level == level
    ensures |data| > 0 ==> SpecifierFree(c.header)
  {
    DoublePercentSpecifierFree(header);
    ConsoleCall(level, if |data| > 0 then DoublePercent(header) else header, data)
  }

  /** The intended call shows the header and every argument exactly as given. */
  lemma IntendedCallPrintsAsGiven<T>(level: LogLevel, header: string, data: seq<LogArgument<T>>, show: T -> string)
    ensures var c := IntendedConsoleCall(level, header, data);
            PrintedLine(c.header, c.data, show) == header + ShownArguments(data, show)
  {
    if |data| > 0 {
      DoublePercentPrintsOriginal(header);
    }
  }
}
