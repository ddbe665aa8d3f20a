/**
 * `src/network.ts`: the request id counter, the address formatter and
 * `constructRawHTTPServerResponse`, which writes a complete HTTP/1.1 response as text.
 */
module Network {
  import opened Wrappers
  import opened Text
  import opened JsObject

  // ---------------------------------------------------------------------------
  // Request ids

  /** The static `HTTPRequest.totalRequests`: how many requests have been constructed. */
  class RequestCounter {
    var totalRequests: nat

    constructor ()
      ensures totalRequests == 0
    {
      totalRequests := 0;
    }
  }

  /** An incoming request; construction takes the next id (`++HTTPRequest.totalRequests`). */
  class HTTPRequest {
    const id: nat

    constructor (counter: RequestCounter)
      modifies counter
      ensures id == old(counter.totalRequests) + 1 && counter.totalRequests == id
    {
      id := counter.totalRequests + 1;
      new;
      counter.totalRequests := counter.totalRequests + 1;
    }
  }

  // ---------------------------------------------------------------------------
  // Addresses

  /** What `socket.address()` or `server.address()` may return. */
  datatype AddressData =
    | AddressInfo(family: string, address: string, port: nat)
    | EmptyObject       // `{}`
    | PipeName(path: string)
    | Null

  /**
   * `formatAddress`: `family://address:port`. Destructuring `null` throws (`None`); an empty
   * object or a string has none of the three properties, each of which prints as `undefined`.
   */
  function FormatAddress(addressData: AddressData): (r: Option<string>)
    ensures r.None? <==> addressData.Null?
    ensures addressData.EmptyObject? || addressData.PipeName? ==> r == Some("undefined://undefined:undefined")
  {
    match addressData
    case AddressInfo(family, address, port) => Some(family + "://" + address + ":" + NatToString(port))
    case EmptyObject => Some("undefined://undefined:undefined")
    case PipeName(_) => Some("undefined://undefined:undefined")
    case Null => None
  }

  /** The text after the last `:` (all of it when there is none). */
  function AfterLastColon(s: string): (r: string)
    ensures |r| <= |s|
  {
    if |s| == 0 then ""
    else if s[|s| - 1] == ':' then ""
    else AfterLastColon(s[..|s| - 1]) + [s[|s| - 1]]
  }

  lemma {:induction false} AfterLastColonOfDigits(prefix: string, digits: string)
    requires forall i :: 0 <= i < |digits| ==> IsDigit(digits[i])
    ensures AfterLastColon(prefix + ":" + digits) == digits
  {
    var s := prefix + ":" + digits;
    if |digits| == 0 {
      assert s[|s| - 1] == ':';
    } else {
      assert s[|s| - 1] == digits[|digits| - 1];
      assert s[..|s| - 1] == prefix + ":" + digits[..|digits| - 1];
      AfterLastColonOfDigits(prefix, digits[..|digits| - 1]);
    }
  }

  /** The middle of `family://address:digits` is the address, and the digits follow the last colon. */
  lemma AddressBetween(family: string, address: string, digits: string, s: string)
    requires forall i :: 0 <= i < |digits| ==> IsDigit(digits[i])
    requires s == family + "://" + address + ":" + digits
    ensures AfterLastColon(s) == digits && s[..|family| + 3] == family + "://" &&
            |family| + 3 <= |s| - |digits| - 1 && s[|family| + 3 .. |s| - |digits| - 1] == address
  {
    var head := family + "://" + address;
    AfterLastColonOfDigits(head, digits);
    assert s[..|head|] == head;
    assert s[..|family| + 3] == head[..|family| + 3];
    assert s[|family| + 3 .. |s| - |digits| - 1] == head[|family| + 3..];
  }

  /**
   * The port can be read back from a formatted address as the decimal number after the last
   * colon, even for an IPv6 address, which contains colons itself.
   */
  lemma FormattedPortReadsBack(family: string, address: string, port: nat)
    ensures var s := FormatAddress(AddressInfo(family, address, port)).value;
            AfterLastColon(s) == NatToString(port) && DecimalValue(NatToString(port)) == port
  {
    var digits := NatToString(port);
    var s := FormatAddress(AddressInfo(family, address, port)).value;
    assert s == family + "://" + address + ":" + digits;
    AddressBetween(family, address, digits, s);
    DecimalRoundTrip(port);
  }

  /**
   * The family and the address can be read back from a formatted address: the family before
   * `://`, the address between it and the colon before the port's digits.
   */
  lemma FormattedAddressReadsBack(family: string, address: string, port: nat)
    ensures var s := FormatAddress(AddressInfo(family, address, port)).value;
            var digits := NatToString(port);
            s[..|family| + 3] == family + "://" &&
            |family| + 3 <= |s| - |digits| - 1 && s[|family| + 3 .. |s| - |digits| - 1] == address
  {
    var digits := NatToString(port);
    var s := FormatAddress(AddressInfo(family, address, port)).value;
    assert s == family + "://" + address + ":" + digits;
    AddressBetween(family, address, digits, s);
  }

  // ---------------------------------------------------------------------------
  // Raw responses

  /** A value of `OutgoingHttpHeaders`: a string, a number, a list of strings, or null/undefined. */
  datatype OutgoingValue = OutString(s: string) | OutNumber(n: int) | OutStrings(items: seq<string>) | Nullish

  /** Why `validateHeaderName` or `validateHeaderValue` throws. */
  datatype HeaderError = InvalidHttpToken(name: string) | InvalidHeaderChar(name: string, value: string)

  /** A character of an HTTP token, as Node's `checkIsHttpToken` accepts it. */
  predicate IsTokenChar(c: char)
  {
    ('a' <= c <= 'z') || ('A' <= c <= 'Z') || ('0' <= c <= '9') || c in "^_`-!#$%&'*+.|~"
  }

  /** `validateHeaderName` accepts `name`: a non-empty token. */
  predicate ValidHeaderName(name: string)
  {
    |name| > 0 && forall i :: 0 <= i < |name| ==> IsTokenChar(name[i])
  }

  /** `validateHeaderValue` accepts `value`: tab, visible ASCII, space, or a code from 0x80 to 0xFF. */
  predicate ValidHeaderValue(value: string)
  {
    forall i :: 0 <= i < |value| ==> value[i] == '\t' || (0x20 <= value[i] as int <= 0x7E) || (0x80 <= value[i] as int <= 0xFF)
  }

  /** `String(value)` of a scalar header value. */
  function Stringify(value: OutgoingValue): string
    requires value.OutString? || value.OutNumber?
  {
    if value.OutString? then value.s else IntToString(value.n)
  }

  function Line(name: string, value: string): string { name + ": " + value }

  /** `prefix` put in front of a successful result. */
  function Prepend(prefix: seq<string>, r: Result<seq<string>, HeaderError>): Result<seq<string>, HeaderError>
  {
    match r
    case Success(v) => Success(prefix + v)
    case Failure(e) => Failure(e)
  }

  lemma PrependNothing(r: Result<seq<string>, HeaderError>)
    ensures Prepend([], r) == r
  {
    if r.Success? { assert [] + r.value == r.value; }
  }

  lemma PrependTwice(a: seq<string>, b: seq<string>, r: Result<seq<string>, HeaderError>)
    ensures Prepend(a, Prepend(b, r)) == Prepend(a + b, r)
  {
    if r.Success? { assert a + (b + r.value) == (a + b) + r.value; }
  }

  /** The lines of an array header value: one per element, in order, each value validated. */
  function ArrayLines(name: string, values: seq<string>): (r: Result<seq<string>, HeaderError>)
    ensures r.Success? <==> forall i :: 0 <= i < |values| ==> ValidHeaderValue(values[i])
    ensures r.Success? ==> |r.value| == |values| && forall i :: 0 <= i < |values| ==> r.value[i] == Line(name, values[i])
    ensures r.Failure? ==> exists i :: 0 <= i < |values| && r.error == InvalidHeaderChar(name, values[i]) && !ValidHeaderValue(values[i])
  {
    if |values| == 0 then Success([])
    else if !ValidHeaderValue(values[0]) then Failure(InvalidHeaderChar(name, values[0]))
    else
      var rest := ArrayLines(name, values[1..]);
      assert forall i :: 1 <= i < |values| ==> values[1..][i - 1] == values[i];
      Prepend([Line(name, values[0])], rest)
  }

  /**
   * The lines of one header entry: none for null or undefined; otherwise the name is validated
   * (even for an empty array), then one line per array element or exactly one for a scalar.
   */
  function EntryLines(name: string, value: OutgoingValue): (r: Result<seq<string>, HeaderError>)
    ensures value.Nullish? ==> r == Success([])
    ensures !value.Nullish? && !ValidHeaderName(name) ==> r == Failure(InvalidHttpToken(name))
    ensures (value.OutString? || value.OutNumber?) && ValidHeaderName(name) ==>
              r == if ValidHeaderValue(Stringify(value)) then Success([Line(name, Stringify(value))])
                   else Failure(InvalidHeaderChar(name, Stringify(value)))
    ensures value.OutStrings? && ValidHeaderName(name) ==> r == ArrayLines(name, value.items)
  {
    match value
    case Nullish => Success([])
    case OutStrings(items) => if !ValidHeaderName(name) then Failure(InvalidHttpToken(name)) else ArrayLines(name, items)
    case _ =>
      if !ValidHeaderName(name) then Failure(InvalidHttpToken(name))
      else
        var text := Stringify(value);
        if !ValidHeaderValue(text) then Failure(InvalidHeaderChar(name, text)) else Success([Line(name, text)])
  }

  /** The lines of all entries, in order; the first entry that fails decides the error. */
  function HeaderLines(entries: Entries<OutgoingValue>): (r: Result<seq<string>, HeaderError>)
    ensures r.Success? <==> forall i :: 0 <= i < |entries| ==> EntryLines(entries[i].0, entries[i].1).Success?
  {
    if |entries| == 0 then Success([])
    else
      assert forall i :: 1 <= i < |entries| ==> entries[1..][i - 1] == entries[i];
      match EntryLines(entries[0].0, entries[0].1)
      case Failure(e) => Failure(e)
      case Success(lines) => Prepend(lines, HeaderLines(entries[1..]))
  }

  /** The three default headers, in this order; the length is the body's UTF-8 byte count. */
  function DefaultHeaders(date: string, body: string): (d: Entries<OutgoingValue>)
    ensures Keys(d) == ["Date", "Connection", "Content-Length"] && DistinctKeys(d)
    ensures Lookup(d, "Date") == Some(OutString(date)) && Lookup(d, "Connection") == Some(OutString("close"))
    ensures Lookup(d, "Content-Length") == Some(OutNumber(Utf8Length(body)))
  {
    var d := [("Date", OutString(date)), ("Connection", OutString("close")), ("Content-Length", OutNumber(Utf8Length(body)))];
    assert d[1..][1..] == d[2..] && d[2..][1..] == [];
    assert Keys(d[2..]) == ["Content-Length"];
    assert Keys(d[1..]) == ["Connection", "Content-Length"];
    assert Lookup(d[2..][1..], "Content-Length") == None && Lookup(d[2..], "Connection") == None;
    assert Lookup(d[2..], "Date") == None;
    assert Lookup(d[1..], "Date") == None;
    assert DistinctKeys(d[2..]) && DistinctKeys(d[1..]);
    assert Lookup(d[1..], "Content-Length") == Lookup(d[2..], "Content-Length");
    d
  }

  /**
   * `{ Date, Connection, Content-Length, ...headers }`: an object in which a default the caller
   * does not pass keeps its value.
   */
  function MergedHeaders(date: string, body: string, headers: Entries<OutgoingValue>): (m: Entries<OutgoingValue>)
    ensures DistinctKeys(m)
    ensures forall x :: Lookup(headers, x) == None ==> Lookup(m, x) == Lookup(DefaultHeaders(date, body), x)
  {
    Assign(DefaultHeaders(date, body), headers)
  }

  /** `STATUS_CODES[statusCode]`, which prints as `undefined` for an unknown code. */
  function ReasonPhrase(statusCode: int, reasons: map<int, string>): string
  {
    if statusCode in reasons then reasons[statusCode] else "undefined"
  }

  function StatusLine(statusCode: int, reasons: map<int, string>): string
  {
    "HTTP/1.1 " + IntToString(statusCode) + " " + ReasonPhrase(statusCode, reasons)
  }

  /**
   * The response text: the status line, the header lines, an empty line and the body, joined by
   * CRLF; or the error a header validation throws. `date` stands for `new Date().toUTCString()`.
   */
  function RawResponse(statusCode: int, headers: Entries<OutgoingValue>, body: string, date: string,
                       reasons: map<int, string>): (r: Result<string, HeaderError>)
    ensures var lines := HeaderLines(MergedHeaders(date, body, headers));
            (r.Failure? <==> lines.Failure?) && (r.Failure? ==> r.error == lines.error)
    ensures r.Success? ==> var head := StatusLine(statusCode, reasons) + "\r\n";
                           |head| <= |r.value| && r.value[..|head|] == head
  {
    match HeaderLines(MergedHeaders(date, body, headers))
    case Failure(e) => Failure(e)
    case Success(lines) =>
      var rest := lines + ["", body];
      assert [StatusLine(statusCode, reasons)] + lines + ["", body] == [StatusLine(statusCode, reasons)] + rest;
      JoinStartsWith(StatusLine(statusCode, reasons), rest, "\r\n");
      Success(Join([StatusLine(statusCode, reasons)] + lines + ["", body], "\r\n"))
  }

  /** The lines from entry `i` on: that entry's lines, then the rest's. */
  lemma HeaderLinesAt(entries: Entries<OutgoingValue>, i: nat)
    requires i < |entries|
    ensures HeaderLines(entries[i..]) == match EntryLines(entries[i].0, entries[i].1)
                                          case Failure(e) => Failure(e)
                                          case Success(lines) => Prepend(lines, HeaderLines(entries[i + 1..]))
  {
    assert entries[i..][0] == entries[i];
    assert entries[i..][1..] == entries[i + 1..];
  }

  /** The lines from element `j` on: that element's line, then the rest's. */
  lemma ArrayLinesAt(name: string, items: seq<string>, j: nat)
    requires j < |items|
    ensures ArrayLines(name, items[j..]) == if !ValidHeaderValue(items[j]) then Failure(InvalidHeaderChar(name, items[j]))
                                            else Prepend([Line(name, items[j])], ArrayLines(name, items[j + 1..]))
  {
    assert items[j..][0] == items[j];
    assert items[j..][1..] == items[j + 1..];
  }

  /**
   * The loops of `constructRawHTTPServerResponse`: one line per scalar entry, one per array
   * element, none for null or undefined; the first invalid name or value throws.
   */
  method BuildHeaderStrings(entries: Entries<OutgoingValue>) returns (r: Result<seq<string>, HeaderError>)
    ensures r == HeaderLines(entries)
  {
    var headerStrings: seq<string> := [];
    var i := 0;
    assert entries[0..] == entries;
    PrependNothing(HeaderLines(entries));
    while i < |entries|
      invariant 0 <= i <= |entries|
      invariant HeaderLines(entries) == Prepend(headerStrings, HeaderLines(entries[i..]))
    {
      var (headerName, headerValue) := entries[i];
      HeaderLinesAt(entries, i);
      if !headerValue.Nullish? {
        if !ValidHeaderName(headerName) {
          return Failure(InvalidHttpToken(headerName));
        }
        if headerValue.OutStrings? {
          var items := headerValue.items;
          var j := 0;
          ghost var before := headerStrings;
          assert items[0..] == items;
          PrependNothing(ArrayLines(headerName, items));
          while j < |items|
            invariant 0 <= j <= |items|
            invariant Prepend(before, ArrayLines(headerName, items)) == Prepend(headerStrings, ArrayLines(headerName, items[j..]))
          {
            ArrayLinesAt(headerName, items, j);
            var stringifiedHeaderValue := items[j];
            if !ValidHeaderValue(stringifiedHeaderValue) {
              return Failure(InvalidHeaderChar(headerName, stringifiedHeaderValue));
            }
            PrependTwice(headerStrings, [Line(headerName, stringifiedHeaderValue)], ArrayLines(headerName, items[j + 1..]));
            headerStrings := headerStrings + [Line(headerName, stringifiedHeaderValue)];
            j := j + 1;
          }
          assert items[j..] == [];
          assert headerStrings + [] == headerStrings;
          var lines := EntryLines(headerName, headerValue).value;
          assert before + lines == headerStrings;
          PrependTwice(before, lines, HeaderLines(entries[i + 1..]));
        } else {
          var stringifiedHeaderValue := Stringify(headerValue);
          if !ValidHeaderValue(stringifiedHeaderValue) {
            return Failure(InvalidHeaderChar(headerName, stringifiedHeaderValue));
          }
          PrependTwice(headerStrings, [Line(headerName, stringifiedHeaderValue)], HeaderLines(entries[i + 1..]));
          headerStrings := headerStrings + [Line(headerName, stringifiedHeaderValue)];
        }
      } else {
        PrependNothing(HeaderLines(entries[i + 1..]));
      }
      i := i + 1;
    }
    assert entries[i..] == [];
    assert headerStrings + [] == headerStrings;
    r := Success(headerStrings);
  }

  /** `constructRawHTTPServerResponse`: the status line, the header lines, an empty line and the body. */
  method ConstructRawHTTPServerResponse(statusCode: int, headers: Entries<OutgoingValue>, body: string,
                                        date: string, reasons: map<int, string>)
    returns (r: Result<string, HeaderError>)
    ensures r == RawResponse(statusCode, headers, body, date, reasons)
  {
    var headerStrings := BuildHeaderStrings(MergedHeaders(date, body, headers));
    if headerStrings.Failure? {
      return Failure(headerStrings.error);
    }
    r := Success(Join([StatusLine(statusCode, reasons)] + headerStrings.value + ["", body], "\r\n"));
  }

  // ---------------------------------------------------------------------------
  // What a response looks like

  /**
   * The status line and each header line end in CRLF; an empty line, then the body, follows.
   * Any header that fails validation makes the whole call throw.
   */
  lemma ResponseLayout(statusCode: int, headers: Entries<OutgoingValue>, body: string, date: string,
                       reasons: map<int, string>)
    ensures var lines := HeaderLines(MergedHeaders(date, body, headers));
            RawResponse(statusCode, headers, body, date, reasons)
            == if lines.Failure? then Failure(lines.error)
               else Success(StatusLine(statusCode, reasons) + "\r\n" + Terminated(lines.value, "\r\n") + "\r\n" + body)
  {
    var lines := HeaderLines(MergedHeaders(date, body, headers));
    if lines.Success? {
      var sl := StatusLine(statusCode, reasons);
      var ls := lines.value;
      assert [sl] + ls + ["", body] == ([sl] + ls + [""]) + [body];
      JoinAsTerminated([sl] + ls + [""], body, "\r\n");
      TerminatedAppend([sl] + ls, [""], "\r\n");
      TerminatedAppend([sl], ls, "\r\n");
      assert Terminated([""], "\r\n") == "\r\n";
      assert Terminated([sl], "\r\n") == sl + "\r\n";
    }
  }

  lemma {:induction false} TerminatedEnds(parts: seq<string>, sep: string)
    requires |parts| > 0
    ensures |Terminated(parts, sep)| >= |sep| && Terminated(parts, sep)[|Terminated(parts, sep)| - |sep|..] == sep
  {
    if |parts| > 1 {
      TerminatedEnds(parts[1..], sep);
    }
  }

  /** A status line and terminated header lines, then an empty line and an empty body, end in a blank line. */
  lemma LayoutEndsWithBlankLine(statusLine: string, lines: seq<string>)
    ensures var s := statusLine + "\r\n" + Terminated(lines, "\r\n") + "\r\n" + "";
            |s| >= 4 && s[|s| - 4..] == "\r\n\r\n"
  {
    var head := statusLine + "\r\n" + Terminated(lines, "\r\n");
    if |lines| > 0 {
      TerminatedEnds(lines, "\r\n");
    }
    assert head[|head| - 2..] == "\r\n";
    var s := head + "\r\n";
    assert head + "\r\n" + "" == s;
    assert s[|s| - 4..] == head[|head| - 2..] + "\r\n";
  }

  /** A response with an empty body ends with a blank line. */
  lemma EmptyBodyEndsWithBlankLine(statusCode: int, headers: Entries<OutgoingValue>, date: string,
                                   reasons: map<int, string>)
    requires RawResponse(statusCode, headers, "", date, reasons).Success?
    ensures var s := RawResponse(statusCode, headers, "", date, reasons).value;
            |s| >= 4 && s[|s| - 4..] == "\r\n\r\n"
  {
    ResponseLayout(statusCode, headers, "", date, reasons);
    LayoutEndsWithBlankLine(StatusLine(statusCode, reasons), HeaderLines(MergedHeaders(date, "", headers)).value);
  }

  /**
   * The defaults come first, in their order, whatever the caller passes; a caller header with the
   * same name takes over the value but not the place; the other caller headers follow in order.
   */
  lemma MergedHeadersOrder(date: string, body: string, headers: Entries<OutgoingValue>, name: string)
    requires DistinctKeys(headers)
    ensures var merged := MergedHeaders(date, body, headers);
            Keys(merged) == ["Date", "Connection", "Content-Length"] + NewKeys(DefaultHeaders(date, body), headers) &&
            Lookup(merged, name) == if Lookup(headers, name).Some? then Lookup(headers, name)
                                    else Lookup(DefaultHeaders(date, body), name)
  {
    var d := DefaultHeaders(date, body);
    AssignKeys(d, headers);
    AssignLookup(d, headers, name);
    assert Keys(d[2..]) == ["Content-Length"] by { assert d[2..][1..] == []; }
    assert Keys(d[1..]) == ["Connection", "Content-Length"] by { assert d[1..][1..] == d[2..]; }
    assert Keys(d) == ["Date", "Connection", "Content-Length"];
  }

  /** The `Connection` and `Content-Length` defaults of an empty body are valid lines. */
  lemma DefaultTailLines(date: string)
    ensures HeaderLines(DefaultHeaders(date, "")[1..]) == Success(["Connection: close", "Content-Length: 0"])
  {
    var d := DefaultHeaders(date, "");
    assert ValidHeaderName("Connection") by {
      forall i | 0 <= i < 10 ensures IsTokenChar("Connection"[i]) { }
    }
    assert ValidHeaderName("Content-Length") by {
      forall i | 0 <= i < 14 ensures IsTokenChar("Content-Length"[i]) { }
    }
    assert ValidHeaderValue("close");
    assert HeaderLines(d[2..]) == Success(["Content-Length: 0"]) by {
      assert Utf8Length("") == 0;
      assert d[2..] == [("Content-Length", OutNumber(0))];
      assert d[2..][1..] == [];
      assert Stringify(OutNumber(0)) == "0" by { assert DigitChar(0) == '0'; }
      assert Line("Content-Length", "0") == "Content-Length: 0";
      assert EntryLines("Content-Length", OutNumber(0)) == Success(["Content-Length: 0"]);
      assert HeaderLines(d[2..][1..]) == Success([]);
      assert ["Content-Length: 0"] + [] == ["Content-Length: 0"];
    }
    assert d[1..][1..] == d[2..];
    assert Line("Connection", "close") == "Connection: close";
    assert EntryLines("Connection", OutString("close")) == Success(["Connection: close"]);
    assert ["Connection: close"] + ["Content-Length: 0"] == ["Connection: close", "Content-Length: 0"];
  }

  /** The default header lines of an empty body; the date is the one value that can fail. */
  lemma DefaultLines(date: string)
    ensures HeaderLines(DefaultHeaders(date, ""))
         == if ValidHeaderValue(date) then Success(["Date: " + date, "Connection: close", "Content-Length: 0"])
            else Failure(InvalidHeaderChar("Date", date))
  {
    var d := DefaultHeaders(date, "");
    DefaultTailLines(date);
    assert ValidHeaderName("Date") by { assert IsTokenChar('D') && IsTokenChar('a') && IsTokenChar('t') && IsTokenChar('e'); }
    assert Line("Date", date) == "Date: " + date;
    assert ["Date: " + date] + ["Connection: close", "Content-Length: 0"] == ["Date: " + date, "Connection: close", "Content-Length: 0"];
  }

  lemma BadRequestStatusLine(reasons: map<int, string>)
    requires 400 in reasons && reasons[400] == "Bad Request"
    ensures StatusLine(400, reasons) == "HTTP/1.1 400 Bad Request"
  {
    assert NatToString(400) == "400" by {
      assert DigitChar(4) == '4' && DigitChar(0) == '0';
      assert NatToString(40) == NatToString(4) + [DigitChar(0)];
    }
  }

  /**
   * `constructRawHTTPServerResponse(400)`, as the `upgrade` and `clientError` handlers send it:
   * the three default headers, an empty line and no body; a date that fails header validation
   * makes it throw.
   */
  lemma BadRequestResponse(date: string, reasons: map<int, string>)
    requires 400 in reasons && reasons[400] == "Bad Request"
    ensures RawResponse(400, [], "", date, reasons)
         == if ValidHeaderValue(date)
            then Success(Join(["HTTP/1.1 400 Bad Request", "Date: " + date, "Connection: close", "Content-Length: 0", "", ""], "\r\n"))
            else Failure(InvalidHeaderChar("Date", date))
  {
    assert MergedHeaders(date, "", []) == DefaultHeaders(date, "");
    DefaultLines(date);
    if ValidHeaderValue(date) {
      BadRequestStatusLine(reasons);
      var lines := ["Date: " + date, "Connection: close", "Content-Length: 0"];
      assert ["HTTP/1.1 400 Bad Request"] + lines + ["", ""]
          == ["HTTP/1.1 400 Bad Request", "Date: " + date, "Connection: close", "Content-Length: 0", "", ""];
    }
  }
}
