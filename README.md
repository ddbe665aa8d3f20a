# RoAP reverse proxy — a Dafny model

RoAP is a small HTTP reverse proxy written in TypeScript for Node. A client request whose path is
`/first/rest...` is forwarded over HTTPS to `first.roblox.com` with the path `/rest...`. Along the
way the proxy checks a set of required headers, drops excluded headers, and lets a header `$X`
override `X`. A missing or relative URL gets 400, the root path gets 204 (GET, HEAD) or 405, and a
failed required-header check gets 401. An upstream failure gets 502, or a destroyed response once
headers were sent. `upgrade` requests and client protocol errors get a hand-written raw
`400 Bad Request`. Around this sits a small logger with hashed topic colours and ANSI escapes,
plus environment-driven settings.

The model has eleven modules:

- `Wrappers`: `Option` and `Result`.
- `Text`: stands in for the JavaScript built-ins the code relies on:
  - `join`;
  - `String(n)` for integers;
  - ASCII `toLowerCase`;
  - UTF-16 code units for `charCodeAt`;
  - UTF-8 byte length for `Buffer.byteLength`.
- `Utils`: `clamp`.
- `Environment`: `getEnv` and `getEnvAsBoolean`.
- `AsciiFormatting`: colour escapes, colour packing and brightness.
- `Logging`: topic colours, header strings, argument escaping, topic lists, and which sink a message reaches.
- `JsObject`: a plain JavaScript object is an insertion-ordered list of entries with distinct keys. The module covers `obj[k]`, `obj[k] = v`, `delete` and object spread.
- `PosixPath`: Node's POSIX `path.resolve` for absolute arguments, and `split("/")`.
- `Network`: the request-id counter, `formatAddress` and `constructRawHTTPServerResponse`.
- `ProxyHeaders`: the required-header gate and the two header passes of the request handler.
- `Proxy`: the `connection`, `request`, upstream, `upgrade` and `clientError` handlers.
  - The server, the client response and the socket are classes with mutable fields.
  - The request handler's decision chain is also stated as a function, `Decide`.

The loops of the source are methods proved against specification functions:

- `GetColorForString`: the FNV-1a hash loop.
- `CheckRequiredHeaders`: the required-header gate.
- `ExcludeHeaders` and `OverrideHeaders`: the two header passes.
- `BuildHeaderStrings`: the nested loops that build the header lines.

Parts that come from outside the code are parameters:

- the WHATWG URL parser's result (host name and path name);
- the current date as text;
- Node's `STATUS_CODES` table;
- the process environment;
- whether an inspector is attached.

Three behaviours of the code are worth stating plainly:

- `output` passes the header as the console's format string, before the escaped data, so a `%` in the first data argument is shown doubled (see "## Findings"). `Output` keeps the call as written; `IntendedConsoleCall` is the call as intended, and nothing else in the model depends on the printed text.

- Node's `validateHeaderName`/`validateHeaderValue` throw on bad input. The model returns that throw as a `Failure`; it does not require valid headers.
- The code never aborts the upstream request when the client disconnects, so the model has no such step.

## Model

| member | source | states |
|---|---|---|
| Utils.Clamp | src/utils.ts:3-6 | With a proper range the unfloored result lies in the range; a value already in range is returned unchanged; an inverted range yields `maxValue` (floored when asked); with `floorValue` the result is the integer floor of the unfloored clamp |
| Utils.ClampIdempotent | src/utils.ts:3-6 | With `minValue <= maxValue`, clamping a clamped value again changes nothing, floored or not |
| Utils.ClampFlooredInRange | src/utils.ts:3-6 | With an integral `minValue`, the floored result still lies within `[minValue, maxValue]` |
| Utils.Floor | src/utils.ts:5 | `Math.floor` returns the integer `r` with `r <= x < r + 1` |
| Utils.FloorBetween | src/utils.ts:5 | A value between `floor(c)` and `c` has the same floor as `c` |
| Environment.GetEnv | src/environment.ts:9-11 | The lookup yields a value exactly when the variable is set, and then the stored value |
| Environment.GetEnvAsBoolean | src/environment.ts:23-29 | True exactly when the variable is set and its lowercased value is `"true"`, or is `"auto"` with a supplied `autoValue` of true; unset gives false |
| Environment.GetEnvAsBooleanIgnoresCase | src/environment.ts:24 | Two values equal up to ASCII case give the same answer |
| Environment.AutoDefersToAutoValue | src/environment.ts:25 | `"auto"` in any case yields `autoValue`, and false when none is supplied |
| Environment.TrueInAnyCase | src/environment.ts:26 | `"TRUE"`, `"True"` and `"true"` all read as true |
| AsciiFormatting.RedOf | src/asciiFormatting.ts:7 | `(a & 0xff0000) >> 16` is a byte |
| AsciiFormatting.GreenOf | src/asciiFormatting.ts:7 | `(a & 0x00ff00) >> 8` is a byte |
| AsciiFormatting.BlueOf | src/asciiFormatting.ts:7 | `a & 0x0000ff` is a byte |
| AsciiFormatting.Channel | src/asciiFormatting.ts:8 | `clamp(value, 0, 255, true)` is 0 below 0, 255 from 255 on, and the floor of the value in between |
| AsciiFormatting.ChannelOfByte | src/asciiFormatting.ts:8 | A component that is already an integer byte is written as it is |
| AsciiFormatting.ChannelList | src/asciiFormatting.ts:8 | The three clamped components in decimal, separated by `;` |
| AsciiFormatting.Background | src/asciiFormatting.ts:5-9 | `background(r, g, b)` is `ESC [48;2;` then the clamped decimal components separated by `;`, then `m` |
| AsciiFormatting.Foreground | src/asciiFormatting.ts:13-17 | `foreground(r, g, b)` is the same escape with `38` |
| AsciiFormatting.BackgroundHex | src/asciiFormatting.ts:5-8 | `background(hex)` is `ESC [48;2;` then the three bytes of the packed colour in decimal, separated by `;`, then `m` |
| AsciiFormatting.ForegroundHex | src/asciiFormatting.ts:13-16 | `foreground(hex)` is the same escape with `38` |
| AsciiFormatting.BackgroundHexOfPacked | src/asciiFormatting.ts:5-25 | `background(rgbToHexDecimal(r, g, b))` equals `background(r, g, b)`, and likewise for `foreground` |
| AsciiFormatting.BackgroundHexLow24 | src/asciiFormatting.ts:6-7 | Only the low 24 bits of a packed colour reach either escape |
| AsciiFormatting.ChannelsLow24 | src/asciiFormatting.ts:7 | Each of the three unpacked bytes depends on the low 24 bits alone |
| AsciiFormatting.BackgroundInjective | src/asciiFormatting.ts:8 | Two background escapes are equal exactly when their clamped components are equal |
| AsciiFormatting.DigitTriple | src/asciiFormatting.ts:8 | A `x;y;zm` list of decimal runs determines the three runs, so the escape text can be read back |
| AsciiFormatting.RgbToHexDecimal | src/asciiFormatting.ts:21-25 | The packed value lies in `[0, 0xFFFFFF]`, and unpacking it gives back each clamped component |
| AsciiFormatting.PackUnpack | src/asciiFormatting.ts:21-25 | Unpacking `r << 16 + g << 8 + b` of three bytes gives back each byte |
| AsciiFormatting.GetColorBrightness | src/asciiFormatting.ts:28-34 | The brightness lies in `[0, 255]`; it is 0 for a colour whose low 24 bits are zero and 255 for a colour whose low 24 bits are all ones |
| Logging.GetColorForString | src/logger.ts:118-123 | The hashing loop computes the 32-bit FNV-1a hash (offset basis 0x811c9dc5, prime 0x01000193, modulo 2^32) over the UTF-16 code units, then keeps its low 24 bits |
| Logging.ColorForString | src/logger.ts:118-123 | The topic colour lies in `[0, 0xFFFFFF]` |
| Logging.Fnv1aAppend | src/logger.ts:120-121 | The hash is incremental: hashing `a + b` is hashing `b` from the hash of `a` |
| Logging.ContrastingForeground | src/logger.ts:129 | Black exactly when the background's brightness exceeds 128, white otherwise |
| Logging.GetColorOptions | src/logger.ts:125-132 | A supplied colour is kept; a missing background is the text's hash colour; a missing foreground contrasts with the resulting background |
| Logging.NewLogTopic | src/logger.ts:151-157 | The topic keeps its text and stores the colours `getColorOptions` derives |
| Logging.FormatHeaderString | src/logger.ts:134-149 | Without colours the text padded with one space each side; with colours that padded text, preceded by the background escape, the foreground escape and `bright`, and followed by `noBright`, `fg.default` and `bg.default` |
| Logging.TopicToString | src/logger.ts:159-164 | Without formatting a topic shows its text padded with one space on each side |
| Logging.TopicInStoredColours | src/logger.ts:134-164 | A formatted topic is background, foreground, bright, the padded text, no-bright and the two default escapes, in the topic's stored colours |
| Logging.LevelTopic | src/logger.ts:170-176 | Each level topic has the level's name, its fixed background within 24 bits, and the foreground that contrasts with that background |
| Logging.LevelTopicForegrounds | src/logger.ts:171-175 | The LOG and WARN topics get black text; DEBUG, INFO and ERROR get white text |
| Logging.PackedBrightness | src/asciiFormatting.ts:21-34 | The brightness of a colour packed from three bytes is `(299 r + 587 g + 114 b) / 1000` |
| Logging.LevelTextPlain | src/logger.ts:171-175 | The level names hold no escape character |
| Logging.VisibleHeader | src/logger.ts:134-149 | With or without colours, a header shows the same text on screen: the text padded with one space each side |
| Logging.VisibleHeaderThen | src/logger.ts:134-149 | A header followed by any text shows its padded text and then what the rest shows |
| Logging.VisibleSkipsEscape | src/asciiFormatting.ts:8 | An escape `ESC ... m` shows nothing |
| Logging.VisiblePlain | src/logger.ts:135 | Text without escape characters is shown as it is |
| Logging.VisibleEscapeThen | src/asciiFormatting.ts:8 | A single escape in front of any text shows nothing of its own |
| Logging.HexEscapes | src/asciiFormatting.ts:5-17 | Every background or foreground colour escape is one escape sequence |
| Logging.ConstantEscapes | src/asciiFormatting.ts:9-40 | `bright`, `noBright`, `fg.default` and `bg.default` are each one escape sequence |
| Logging.VisibleStyled | src/logger.ts:139-147 | Three escapes, a plain text, then three escapes show only the text |
| Logging.VisibleTopics | src/logger.ts:184 | Formatted topics show exactly the unformatted topic strings |
| Logging.VisibleTopicsThen | src/logger.ts:184 | The same holds whatever follows the topics |
| Logging.FormatOutputHeaderString | src/logger.ts:180-186 | Unformatted, the output header is the padded date, the padded level name, then each topic's padded text |
| Logging.VisibleHeaderParts | src/logger.ts:180-186 | The date header, the level topic and the topics, formatted, show the unformatted date, level and topic strings |
| Logging.VisibleOutputHeader | src/logger.ts:180-186 | A formatted output header shows exactly the unformatted one, when the date and topic texts hold no escape character |
| Logging.VisibleHeaderLine | src/logger.ts:180-186 | The same for any level topic with plain text |
| Logging.DoublePercent | src/logger.ts:189 | Doubling `%` never shortens a string |
| Logging.DoublePercentPrintsOriginal | src/logger.ts:188-190 | A `%`-doubled text, used as the console's format string, shows as the original text; this holds only for the format string, the first argument of the console call |
| Logging.EscapeArguments | src/logger.ts:188-190 | The length is kept; every element after the first is unchanged; the first is `%`-doubled exactly when it is a string and more than one argument was passed |
| Logging.AddTopics | src/logger.ts:199-209 | The new logger holds the old topics first, unchanged, then one topic per argument in order: a text becomes `new LogTopic(text)`, a topic is kept |
| Logging.SettingsFromEnv | src/logger.ts:28-33 | The two logger settings are `getEnvAsBoolean` of their variables; each debugger setting is true exactly when its variable is set and reads, lowercased, `true`, or `auto` with the matching logger setting true |
| Logging.ConsoleSink | src/logger.ts:218-220 | The console gets the call exactly when the level is not debug or debug logs are shown |
| Logging.DebuggerSink | src/logger.ts:222-227 | The inspector gets the call exactly when it is attached and the level is not debug or its own debug setting is on; the header is in the inspector's formatting, reused or rebuilt |
| Logging.Output | src/logger.ts:211-230 | Which sinks receive a message (both conditions as if-and-only-if); each receives the escaped arguments and the output header in its own formatting |
| Logging.NoPercentPrinted | src/logger.ts:218-220 | A header without `%` is a format string without specifiers, and the console shows it as it is |
| Logging.DoublePercentSpecifierFree | src/logger.ts:189 | A `%`-doubled text holds no `%s`, `%d`, `%i`, `%f`, `%j`, `%o`, `%O` or `%c` specifier |
| Logging.EscapedFirstString | src/logger.ts:189 | With more arguments after it, a string first argument is `%`-doubled and the rest are passed unchanged |
| Logging.ShownEscaped | src/logger.ts:216-220 | After the format string the console shows the escaped first string with its `%` doubled, then the other arguments unchanged |
| Logging.EscapedFirstArgumentShown | src/logger.ts:216-220 | As `output` calls the console, the header is the format string, and the first data argument is shown with every `%` doubled |
| Logging.PercentShownDoubled | src/logger.ts:216-220 | `info("100%", "x")` under the header `H` is shown as `H 100%% x`, not `H 100% x` |
| Logging.IntendedConsoleCall | src/logger.ts:216-220 | The corrected call passes the data untouched and `%`-doubles the header whenever arguments follow it, so the format string holds no specifier |
| Logging.IntendedCallPrintsAsGiven | src/logger.ts:216-220 | The corrected call shows the header and every argument exactly as given |
| JsObject.Keys | src/index.ts:67 | `Object.entries` order gives one key per entry |
| JsObject.LookupIffKey | src/index.ts:58 | `obj[k]` has a value exactly when `k` is one of the keys, and that value is stored with `k` |
| JsObject.PosOf | src/index.ts:74-75 | The position of a key is below the length exactly when the key is present, where it holds the key's entry |
| JsObject.LookupEntry | src/index.ts:67 | In an object every entry is what its key looks up |
| JsObject.Set | src/index.ts:69-74 | `obj[k] = v`: `k` then holds `v` and every other key is unchanged; an existing key keeps the order of keys, a new key is appended; keys stay distinct |
| JsObject.SetKeys | src/index.ts:74 | Setting adds the key to the end of the key list exactly when it is new |
| JsObject.Delete | src/index.ts:75 | `delete obj[k]`: `k` is gone, every other key is unchanged, and an absent key changes nothing |
| JsObject.DeleteKeys | src/index.ts:75 | Deleting a present key removes just that key from the key list, keeping the order of the others |
| JsObject.Assign | src/network.ts:30-35 | After `{ ...target, ...source }` a key that `source` lacks keeps the target's value, and spreading into an object gives an object |
| JsObject.AssignKeys | src/network.ts:30-35 | `{ ...target, ...source }` keeps the keys of `target` in place and appends the new keys of `source` in order |
| JsObject.AssignLookup | src/network.ts:30-35 | After the spread a key of `source` has the source's value and any other key the target's |
| JsObject.AssignDistinct | src/network.ts:30-35 | A spread of objects is an object |
| Text.NatToString | src/asciiFormatting.ts:8 | `String(n)` of a natural number is a non-empty decimal numeral with no leading zero |
| Text.DecimalRoundTrip | src/network.ts:20 | Reading the decimal numeral of `n` back gives `n` |
| Text.NatToStringInjective | src/asciiFormatting.ts:8 | Different numbers have different numerals |
| Text.JoinAppend | src/network.ts:53-56 | Joining two non-empty lists puts exactly one separator between them |
| Text.JoinAsTerminated | src/network.ts:53-56 | `join` is every part but the last followed by the separator, then the last part |
| Text.LowerAscii | src/environment.ts:24 | `toLowerCase` keeps the length, maps `A`..`Z` to `a`..`z` and leaves every other character alone |
| Text.Utf16 | src/logger.ts:120-121 | A string has at least as many UTF-16 code units as characters, each below 2^16 |
| Text.Utf16OfBasicPlane | src/logger.ts:121 | Without astral characters, `charCodeAt` yields one unit per character, its code |
| Text.Utf8Length | src/network.ts:33 | `Buffer.byteLength` lies between one and four bytes per character |
| Text.AsciiByteLength | src/network.ts:33 | For ASCII text the byte length is the number of characters |
| Network.RequestCounter.constructor | src/network.ts:14 | The request counter starts at zero |
| Network.HTTPRequest.constructor | src/network.ts:13-16 | Each construction takes the counter plus one as its id and leaves the counter at that id, so ids strictly increase |
| Network.FormatAddress | src/network.ts:18-21 | Destructuring `null` throws; an empty object or a pipe name prints `undefined://undefined:undefined` |
| Network.FormattedPortReadsBack | src/network.ts:18-21 | The text after the last colon of a formatted address is the port's decimal numeral, which reads back as the port, even for an IPv6 address |
| Network.FormattedAddressReadsBack | src/network.ts:18-21 | A formatted address starts with `family://`, and what lies between that and the colon before the port's digits is the address |
| Network.AfterLastColonOfDigits | src/network.ts:20 | The text after the last colon of `prefix:digits` is the digits |
| Network.ArrayLines | src/network.ts:39-44 | An array value gives one `name: value` line per element, in order, exactly when every element is valid; otherwise the error names an invalid element |
| Network.EntryLines | src/network.ts:36-49 | A null or undefined value gives no line; any other value first has its name validated; a scalar gives exactly one line and an array gives the array's lines |
| Network.HeaderLines | src/network.ts:30-51 | The lines of all entries succeed exactly when every entry's lines do |
| Network.HeaderLinesAt | src/network.ts:30-51 | From entry `i` on, the lines are that entry's lines then the rest's, and the first failure decides the error |
| Network.ArrayLinesAt | src/network.ts:40-44 | From element `j` on, the lines are that element's line then the rest's |
| Network.BuildHeaderStrings | src/network.ts:28-51 | The nested loops push exactly the header lines of the specification, or stop with the first validation error |
| Network.DefaultHeaders | src/network.ts:30-33 | The defaults are `Date`, `Connection` and `Content-Length`, in this order, holding the date, `close` and the body's UTF-8 byte count |
| Network.MergedHeaders | src/network.ts:30-35 | The merged headers form an object, and every default the caller does not pass keeps its value |
| Network.RawResponse | src/network.ts:23-57 | The response fails exactly when building the header lines fails, with that error; a built response starts with the status line and CRLF |
| Network.ConstructRawHTTPServerResponse | src/network.ts:23-57 | The method returns the specified response text, or the validation error |
| Network.ResponseLayout | src/network.ts:53-56 | The response is the status line, each header line ended by CRLF, an empty line and the body; any header failing validation makes the call throw |
| Network.LayoutEndsWithBlankLine | src/network.ts:53-56 | A status line, terminated header lines, an empty line and an empty body end in `\r\n\r\n` |
| Network.EmptyBodyEndsWithBlankLine | src/network.ts:53-56 | A response with an empty body ends in `\r\n\r\n` |
| Network.MergedHeadersOrder | src/network.ts:30-35 | `Date`, `Connection` and `Content-Length` come first in that order; a caller header with the same name takes the value but not the position; other caller headers follow in order |
| Network.DefaultTailLines | src/network.ts:32-33 | With an empty body the `Connection` and `Content-Length` defaults give `Connection: close` and `Content-Length: 0` |
| Network.DefaultLines | src/network.ts:30-49 | The default lines of an empty body are the date, `Connection: close` and `Content-Length: 0`; the date is the only value that can fail |
| Network.BadRequestStatusLine | src/network.ts:54 | Status 400 gives `HTTP/1.1 400 Bad Request` |
| Network.BadRequestResponse | src/network.ts:23-57 | `constructRawHTTPServerResponse(400)` is the status line, the three default headers, an empty line and no body |
| PosixPath.Split | src/index.ts:61 | `split("/")` always gives at least one piece |
| PosixPath.SplitPieces | src/index.ts:61 | No piece holds a slash |
| PosixPath.SplitAtSlash | src/index.ts:61 | Splitting at a slash splits each side separately |
| PosixPath.JoinSplit | src/index.ts:61 | Joining the pieces with `/` gives the string back |
| PosixPath.SplitJoin | src/index.ts:61 | Slash-free pieces joined with `/` split back into the same pieces |
| PosixPath.NormalizeClean | src/index.ts:49 | Normalising never keeps an empty, `.` or `..` segment, nor one with a slash |
| PosixPath.NormalizeAppend | src/index.ts:49 | Normalising `a + b` is normalising `b` after `a` |
| PosixPath.NormalizeOfClean | src/index.ts:49 | Clean segments are kept as they are |
| PosixPath.Resolve | src/index.ts:49 | The resolved path starts with `/` |
| PosixPath.ResolvedShape | src/index.ts:49 | The resolved path is `/` exactly when no segment is left; otherwise it has clean segments, no trailing slash, and splits back into its segments |
| PosixPath.ResolveOne | src/index.ts:49 | Resolving one absolute path normalises its split segments |
| PosixPath.ResolveIdempotent | src/index.ts:49 | Resolving a resolved path changes nothing |
| PosixPath.GatherRelative | src/index.ts:63 | Relative non-empty arguments are each gathered with a following slash |
| PosixPath.ResolveUnderRoot | src/index.ts:63 | `resolve("/", ...segments)` of clean segments is `/` followed by the segments joined with `/` |
| PosixPath.HasAbsoluteExtend | src/index.ts:63 | Extra arguments after an absolute one keep the resolution independent of the working directory |
| ProxyHeaders.CheckRequiredHeaders | src/index.ts:57-59 | The gate loop succeeds exactly when every required header is present under its exact name with exactly the configured string |
| ProxyHeaders.IgnoredHeaderNames | src/index.ts:37 | Each configured excluded name is lowercased, in order |
| ProxyHeaders.KeepAllowed | src/index.ts:65-69 | An excluded name looks up nothing, every other name looks up its incoming value, and names stay distinct |
| ProxyHeaders.KeepAllowedMembers | src/index.ts:65-69 | The kept entries are exactly the incoming entries whose name is not excluded, with values unchanged |
| ProxyHeaders.KeepAllowedExtend | src/index.ts:67-69 | Filtering a concatenation is concatenating the filtered parts, so the order is kept |
| ProxyHeaders.ExcludeHeaders | src/index.ts:65-69 | The first loop builds exactly the filtered headers |
| ProxyHeaders.OverrideHeaders | src/index.ts:71-76 | The second loop runs over the entries taken before it starts and gives the specified result |
| ProxyHeaders.OverriddenLookup | src/index.ts:71-76 | Without `$$` names, each `X` takes the value of `$X` when there is one, every name `$` followed by at least one character is gone, and every other header is unchanged |
| ProxyHeaders.NoOverrideNameRemains | src/index.ts:73-75 | Without `$$` names, no name of two or more characters starting with `$` survives |
| ProxyHeaders.OverridesKeepDistinct | src/index.ts:71-76 | The second pass yields an object again |
| ProxyHeaders.Overridden | src/index.ts:71-76 | The second pass turns an object into an object |
| ProxyHeaders.ForwardedHeaders | src/index.ts:65-76 | The headers forwarded upstream form an object when the incoming headers do |
| ProxyHeaders.OverridesFrom | src/index.ts:72-76 | The loop invariant: after the first `i` snapshot entries each key holds what the overrides so far give it |
| ProxyHeaders.ForwardedLookup | src/index.ts:65-76 | An excluded `$X` never overrides; a surviving `$X` sets `X` even when `X` is excluded; override names and excluded names are gone; every other header passes unchanged |
| ProxyHeaders.KeepAllowedNoDoubleDollar | src/index.ts:65-69 | Filtering cannot introduce a `$$` name |
| ProxyHeaders.DoubleDollarLeavesOverrideName | src/index.ts:71-76 | With `$$` names the order matters: `$$a` after `$a` leaves `$a` in the result, while the other order does not |
| Proxy.NewConfig | src/index.ts:37-38 | Every excluded name is lowercased, in order; the required headers are taken as they are |
| Proxy.SafePathname | src/index.ts:49 | The normalised path name starts with `/` |
| Proxy.Decide | src/index.ts:47-63 | The handler replies with 204, 400, 401 or 405, and forwards exactly an accepted URL off the root whose required headers all match, to the target of its path with the request's method |
| Proxy.TargetOf | src/index.ts:61-63 | The upstream host ends with a dot and the base host, and the upstream path starts with `/` |
| Proxy.BadRequestIff | src/index.ts:47-109 | The handler answers 400 exactly when the URL is missing or does not start with `/` |
| Proxy.RootPathIgnoresHeaders | src/index.ts:51-55 | On the root path the answer is 204 for GET and HEAD and 405 otherwise, whatever the headers and the configuration |
| Proxy.UnauthorizedIff | src/index.ts:57-59 | Off the root the answer is 401 exactly when some required header does not match |
| Proxy.TargetShape | src/index.ts:61-63 | The upstream host is the first normalised segment, a dot and the base host; the upstream path is `/` and the remaining segments joined by `/`, or `/` when none remain |
| Proxy.CleanPathResolved | src/index.ts:49 | A path of clean segments is already normalised |
| Proxy.TargetOfCleanPath | src/index.ts:61-63 | A path of clean segments goes to its first segment's host, with the rest as the path |
| Proxy.ExampleTarget | src/index.ts:61-63 | `/abc/def/ghi` goes to `abc.roblox.com` with the path `/def/ghi` |
| Proxy.ServerResponse.constructor | src/index.ts:41 | A fresh response has sent nothing and has not ended |
| Proxy.ServerResponse.WriteHead | src/index.ts:52 | The first call records the status and headers and marks them sent; a second call throws and changes nothing |
| Proxy.ServerResponse.End | src/index.ts:55 | Ends the response and changes nothing else |
| Proxy.ServerResponse.Destroy | src/index.ts:96 | Destroys the response and changes nothing else |
| Proxy.Socket.constructor | src/index.ts:15 | A fresh socket has no id, no address text and nothing written |
| Proxy.ProxyServer.constructor | src/index.ts:14-40 | Both counters start at zero |
| Proxy.ProxyServer.OnConnection | src/index.ts:15-17 | The socket counter goes up by one and the socket takes it as its id; the handler throws (`threw`) exactly when the address is `null`, leaving the address text as it was; otherwise the address text is the formatted address |
| Proxy.ProxyServer.OnRequest | src/index.ts:41-110 | A reply writes its status with `Connection: close`, ends the response and takes no id; a forward takes the next proxy-request id and creates the upstream request with the derived target, the method and the forwarded headers, leaving the response untouched |
| Proxy.OnUpstreamResponse | src/index.ts:82-87 | The upstream status code and headers are written to the client response |
| Proxy.OnUpstreamError | src/index.ts:93-98 | Before headers are sent, 502 with `Connection: close` and the response is ended; after, the response is destroyed and no second status line is written |
| Proxy.RejectSocket | src/index.ts:112-116 | The raw 400 response is written, then the socket is ended and destroyed; if building it throws, the socket is untouched |

## Left out

- URL parsing: `new URL(url, "https://roblox.com")` and its `hostname`/`pathname` setters follow the WHATWG URL Standard, which is not modelled. The handler receives the parsed host name and path name; the path is required to start with `/`, as the path of an `https:` URL always does. A URL starting with `//` or `/\` is scheme-relative to that parser and changes the host.
- Proxy.ProxyServer.OnRequest: `new URL` (src/index.ts:48) throws for a scheme-relative URL such as `//` with an empty or invalid host, and the request listener then throws uncaught. `OnRequest` and `Decide` take a successful parse as input, so this throw is not modelled.
- The setters are taken literally: the model does not re-parse or re-encode the new host name and path name.
- The query string and fragment carried over to the upstream URL are not modelled.
- `path.resolve` falls back to the working directory when no argument is absolute. Every call in the proxy passes an absolute argument, so `Resolve` requires one.
- Node lowercases incoming header names. Headers are taken with names as Node delivers them, and every lookup is exact, as in the code.
- JavaScript objects list integer-like keys first, in numeric order, and treat `__proto__` specially. The model keeps insertion order for every key.
- `String(value)`: NaN, the infinities and non-integral numbers are not modelled; numeric header values are integers.
- `toLowerCase` maps only the ASCII letters; Unicode case mapping is not modelled.
- Node's `validateHeaderName` and `validateHeaderValue` are modelled by predicates that follow Node's token and header-character rules; the thrown error objects are reduced to the offending name and value.
- Node's `STATUS_CODES` table is a parameter (`reasons`).
- `Date.toUTCString` and `toISOString` are given strings.
- The process environment is a map parameter.
- Whether an inspector is attached (`getDebuggerUrl`) is a boolean parameter.
- Stream plumbing: `createServer`, the event wiring, `request.pipe` and `robloxResponse.pipe` are I/O.
- Socket `data`, `error` and `close` logging is I/O.
- Node's own event ordering and concurrency are not modelled; each handler is one atomic step.
- The `https.request` call becomes an `UpstreamRequest` value returned by `OnRequest`.
- The `listening`, `close` and `error` handlers and `server.listen` only log or start I/O.
- Logging output: the `Console` and inspector calls are not made. `Output` returns the calls it would make.
- The `inspect.custom` prototype patches (src/logger.ts:35-103) are runtime reflection over Node objects.
- `Logger.debug`, `log`, `info`, `warn` and `error` are one-line aliases of `output`.
- `getEnvAsFilePath`, `getEnvAsNumber` and `getAsJSON` rely on `path.resolve` against the working directory, `Number` and `JSON.parse`. The configuration they produce (`EXCLUDED_HEADER_NAMES`, `REQUIRED_HEADERS`) is an input to `NewConfig`.
- A required value that is not a JSON string is one case, `RequiredOther`, because it never equals a header value under `!==`.
- Startup throws when `EXCLUDED_HEADER_NAMES` is unset or not iterable (`[...undefined]`); this is not modelled.
- `isDevelopment` and `isProduction` are unused environment flags.
- The `styles` constants other than `bright` and `noBright` are not used by the logger and are not modelled.
- The client-disconnect abort of an upstream request does not exist in the code.
- Utils.Clamp: with `floorValue` and a non-integral `minValue` the floored result can fall below `minValue`, exactly as the code does. The range bound for that case is therefore stated as `minValue - 1 < r <= maxValue`, and the in-range bound only for an integral `minValue` (`ClampFlooredInRange`).
- Logging.TopicToString: its own contract states only the unformatted case; the formatted case is stated by `TopicInStoredColours`.
- Logging.GetColorBrightness: `getColorBrightness` is a real number, kept as a real; its contract pins the range and the two extreme colours, and `PackedBrightness` gives the exact value for packed bytes.
- ProxyHeaders.OverriddenLookup: the lookup characterisation assumes no header name starts with `$$`; with such names the result depends on entry order, shown by `DoubleDollarLeavesOverrideName`.

## Findings

| source | as written | input that shows it | evidently intended | confidence | as-written member | corrected member |
|---|---|---|---|---|---|---|
| src/logger.ts:216-220 | `escapeArguments` doubles every `%` of `data[0]`, but the console call passes `headerString` first, so the header is the format string and `data[0]` is an ordinary argument; `%%` in it is shown as `%%` | `info("100%", "x")`, shown as `<header> 100%% x` | the `%` escape goes on the format string (the header), and the data is shown as given | not executed | Logging.PercentShownDoubled | Logging.IntendedCallPrintsAsGiven |
