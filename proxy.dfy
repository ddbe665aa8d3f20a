/**
 * The proxy server of `src/index.ts`. A request whose path is `/first/rest...` is forwarded to
 * `https://first.roblox.com/rest...` after two header passes; a missing or relative URL gets
 * 400, the root path 204 or 405, and a failed required-header check 401. The URL parser is
 * outside the model: the handler receives, beside the request, what `new URL(url, base)`
 * makes of its URL.
 */
module Proxy {
  import opened Wrappers
  import opened Text
  import opened JsObject
  import opened PosixPath
  import opened ProxyHeaders
  import opened Network

  /** The request as the handler reads it: `url` is `undefined` for `None`. */
  datatype IncomingRequest = IncomingRequest(url: Option<string>, httpMethod: string, headers: Headers)

  /** Host name and path name of the parsed URL. The path of an `https:` URL always starts with `/`. */
  datatype ParsedUrl = ParsedUrl(hostname: string, pathname: string)

  /** The configuration read at start-up: excluded header names and required headers. */
  datatype ProxyConfig = ProxyConfig(ignoredHeaderNames: seq<string>, requiredHeaders: Entries<RequiredValue>)

  /** The configuration built from `EXCLUDED_HEADER_NAMES` and `REQUIRED_HEADERS`. */
  function NewConfig(excludedHeaderNames: seq<string>, requiredHeaders: Entries<RequiredValue>): (c: ProxyConfig)
    ensures |c.ignoredHeaderNames| == |excludedHeaderNames|
    ensures forall i :: 0 <= i < |excludedHeaderNames| ==> c.ignoredHeaderNames[i] == LowerAscii(excludedHeaderNames[i])
    ensures c.requiredHeaders == requiredHeaders
  {
    ProxyConfig(IgnoredHeaderNames(excludedHeaderNames), requiredHeaders)
  }

  datatype Target = Target(hostname: string, pathname: string)

  /** What the handler does: reply at once with a status code, or forward the request. */
  datatype Decision = Reply(statusCode: int) | Forward(target: Target, httpMethod: string, headers: Headers)

  /** The request passed to `https.request`, with its id. */
  datatype UpstreamRequest = UpstreamRequest(id: nat, target: Target, httpMethod: string, headers: Headers)

  /** `{ "Connection": "close" }`. */
  const ConnectionClose: Headers := [("Connection", Single("close"))]

  /** `urlString && urlString[0] === "/"`. */
  predicate UrlAccepted(url: Option<string>)
  {
    url.Some? && |url.value| > 0 && url.value[0] == '/'
  }

  function SafePathname(parsed: ParsedUrl): (r: string)
    requires IsAbsolute(parsed.pathname)
    ensures |r| > 0 && r[0] == '/'
  {
    Resolve([parsed.pathname])
  }

  /**
   * The first segment goes in front of the host name, the rest becomes the path: the upstream
   * host is a name under the requested host, and the upstream path is absolute.
   */
  function TargetOf(parsed: ParsedUrl): (t: Target)
    requires IsAbsolute(parsed.pathname)
    ensures var suffix := "." + parsed.hostname;
            |suffix| <= |t.hostname| && t.hostname[|t.hostname| - |suffix|..] == suffix
    ensures |t.pathname| > 0 && t.pathname[0] == '/'
  {
    var pathnameSegments := Split(SafePathname(parsed)[1..]);
    var rest := pathnameSegments[1..];
    assert HasAbsolute(["/"] + rest) by {
      assert HasAbsolute(["/"]) by { assert IsAbsolute(["/"][0]); }
      HasAbsoluteExtend(["/"], rest);
    }
    assert Join([pathnameSegments[0], parsed.hostname], ".") == pathnameSegments[0] + ("." + parsed.hostname) by {
      assert [pathnameSegments[0], parsed.hostname][1..] == [parsed.hostname];
    }
    Target(Join([pathnameSegments[0], parsed.hostname], "."), Resolve(["/"] + rest))
  }

  /**
   * The decision chain of the `request` handler: it replies 204, 400, 401 or 405, and forwards
   * exactly an accepted URL off the root whose required headers match, with the request's
   * method, to the target of its path.
   */
  function Decide(request: IncomingRequest, parsed: ParsedUrl, config: ProxyConfig): (d: Decision)
    requires IsAbsolute(parsed.pathname)
    ensures d.Reply? ==> d.statusCode in {204, 400, 401, 405}
    ensures d.Forward? <==> UrlAccepted(request.url) && SafePathname(parsed) != "/" &&
                            RequiredHeadersMatch(request.headers, config.requiredHeaders)
    ensures d.Forward? ==> d.target == TargetOf(parsed) && d.httpMethod == request.httpMethod
  {
    if !UrlAccepted(request.url) then Reply(400)
    else if SafePathname(parsed) == "/" then Reply(if request.httpMethod == "GET" || request.httpMethod == "HEAD" then 204 else 405)
    else if !RequiredHeadersMatch(request.headers, config.requiredHeaders) then Reply(401)
    else Forward(TargetOf(parsed), request.httpMethod, ForwardedHeaders(request.headers, config.ignoredHeaderNames))
  }

  // ---------------------------------------------------------------------------
  // Properties of the decision chain

  /** 400 exactly for a missing URL or one that does not start with `/`. */
  lemma BadRequestIff(request: IncomingRequest, parsed: ParsedUrl, config: ProxyConfig)
    requires IsAbsolute(parsed.pathname)
    ensures Decide(request, parsed, config) == Reply(400) <==> !UrlAccepted(request.url)
  {
  }

  /**
   * The root path answers 204 to GET and HEAD and 405 to any other method, whatever the headers
   * and the configuration.
   */
  lemma RootPathIgnoresHeaders(request: IncomingRequest, parsed: ParsedUrl, config: ProxyConfig,
                               otherHeaders: Headers, otherConfig: ProxyConfig)
    requires IsAbsolute(parsed.pathname) && UrlAccepted(request.url) && SafePathname(parsed) == "/"
    ensures Decide(request, parsed, config) == Reply(if request.httpMethod == "GET" || request.httpMethod == "HEAD" then 204 else 405)
    ensures Decide(request.(headers := otherHeaders), parsed, otherConfig) == Decide(request, parsed, config)
  {
  }

  /** Off the root, 401 exactly when some required header does not match. */
  lemma UnauthorizedIff(request: IncomingRequest, parsed: ParsedUrl, config: ProxyConfig)
    requires IsAbsolute(parsed.pathname) && UrlAccepted(request.url) && SafePathname(parsed) != "/"
    ensures Decide(request, parsed, config) == Reply(401) <==> !RequiredHeadersMatch(request.headers, config.requiredHeaders)
  {
  }

  /**
   * The upstream target: the normalised path's first segment, a dot and the host name; the path
   * is `/` followed by the remaining segments, or `/` when there are none.
   */
  lemma TargetShape(parsed: ParsedUrl)
    requires IsAbsolute(parsed.pathname) && SafePathname(parsed) != "/"
    ensures var segs := ResolvedSegments([parsed.pathname]);
            |segs| > 0 && AllClean(segs) &&
            TargetOf(parsed) == Target(segs[0] + "." + parsed.hostname, "/" + Join(segs[1..], "/"))
  {
    var segs := ResolvedSegments([parsed.pathname]);
    ResolvedShape([parsed.pathname]);
    assert AllClean(segs[1..]) by {
      forall i | 0 <= i < |segs| - 1 ensures IsCleanSegment(segs[1..][i]) { assert segs[1..][i] == segs[i + 1]; }
    }
    ResolveUnderRoot(segs[1..]);
    assert Join([segs[0], parsed.hostname], ".") == segs[0] + "." + parsed.hostname by {
      assert [segs[0], parsed.hostname][1..] == [parsed.hostname];
    }
  }

  /** A path of clean segments is already normalised. */
  lemma CleanPathResolved(segs: seq<string>)
    requires |segs| > 0 && AllClean(segs)
    ensures ResolvedSegments(["/" + Join(segs, "/")]) == segs
  {
    var p := "/" + Join(segs, "/");
    ResolveOne(p);
    assert p == "" + "/" + Join(segs, "/");
    SplitAtSlash("", Join(segs, "/"));
    SplitJoin(segs);
    assert Split(p) == [""] + segs;
    NormalizeAppend([], [""], segs);
    assert Normalize([], [""]) == [];
    NormalizeOfClean([], segs);
    assert [] + segs == segs;
  }

  /** A path of clean segments is forwarded to its first segment's host, with the rest as path. */
  lemma TargetOfCleanPath(hostname: string, segs: seq<string>)
    requires |segs| > 0 && AllClean(segs)
    ensures var parsed := ParsedUrl(hostname, "/" + Join(segs, "/"));
            IsAbsolute(parsed.pathname) && SafePathname(parsed) != "/" &&
            TargetOf(parsed) == Target(segs[0] + "." + hostname, "/" + Join(segs[1..], "/"))
  {
    var parsed := ParsedUrl(hostname, "/" + Join(segs, "/"));
    CleanPathResolved(segs);
    assert SafePathname(parsed) == "/" + Join(segs, "/");
    assert SafePathname(parsed) != "/" by {
      ResolvedShape([parsed.pathname]);
    }
    TargetShape(parsed);
  }

  /** `/abc/def/ghi` is forwarded to `abc.roblox.com` with the path `/def/ghi`. */
  lemma ExampleTarget()
    ensures IsAbsolute("/abc/def/ghi") && SafePathname(ParsedUrl("roblox.com", "/abc/def/ghi")) != "/"
    ensures TargetOf(ParsedUrl("roblox.com", "/abc/def/ghi")) == Target("abc.roblox.com", "/def/ghi")
  {
    var segs := ["abc", "def", "ghi"];
    assert AllClean(segs) by {
      assert IsCleanSegment("abc") && IsCleanSegment("def") && IsCleanSegment("ghi");
    }
    assert Join(segs[1..], "/") == "def/ghi" by {
      assert segs[1..][1..] == ["ghi"];
    }
    assert Join(segs, "/") == "abc/def/ghi" by {
      assert segs[1..] == ["def", "ghi"];
    }
    var path := "/" + Join(segs, "/");
    assert path == "/abc/def/ghi";
    assert segs[0] + "." + "roblox.com" == "abc.roblox.com";
    assert "/" + Join(segs[1..], "/") == "/def/ghi";
    TargetOfCleanPath("roblox.com", segs);
    var parsed := ParsedUrl("roblox.com", path);
    assert parsed == ParsedUrl("roblox.com", "/abc/def/ghi");
  }

  // ---------------------------------------------------------------------------
  // Node objects the handlers touch

  /** A server response: what `writeHead` wrote, whether headers went out, and how it ended. */
  class ServerResponse {
    var head: Option<(int, Headers)>
    var headersSent: bool
    var finished: bool
    var destroyed: bool

    constructor ()
      ensures head == None && !headersSent && !finished && !destroyed
    {
      head := None;
      headersSent := false;
      finished := false;
      destroyed := false;
    }

    /** `writeHead`: a second call throws (`ok` false) and changes nothing. */
    method WriteHead(statusCode: int, headers: Headers) returns (ok: bool)
      modifies this
      ensures ok == !old(headersSent)
      ensures ok ==> head == Some((statusCode, headers)) && headersSent
      ensures !ok ==> head == old(head) && headersSent
      ensures finished == old(finished) && destroyed == old(destroyed)
    {
      if headersSent {
        return false;
      }
      head := Some((statusCode, headers));
      headersSent := true;
      return true;
    }

    method End()
      modifies this
      ensures finished && head == old(head) && headersSent == old(headersSent) && destroyed == old(destroyed)
    {
      finished := true;
    }

    method Destroy()
      modifies this
      ensures destroyed && head == old(head) && headersSent == old(headersSent) && finished == old(finished)
    {
      destroyed := true;
    }
  }

  /** A client socket: its id, its address text, what was written to it, and how it ended. */
  class Socket {
    var id: Option<nat>
    var addressString: Option<string>
    var written: seq<string>
    var ended: bool
    var destroyed: bool

    constructor ()
      ensures id == None && addressString == None && written == [] && !ended && !destroyed
    {
      id := None;
      addressString := None;
      written := [];
      ended := false;
      destroyed := false;
    }
  }

  // ---------------------------------------------------------------------------
  // The server

  class ProxyServer {
    var totalSockets: nat
    var totalProxyRequests: nat
    const config: ProxyConfig

    constructor (config: ProxyConfig)
      ensures totalSockets == 0 && totalProxyRequests == 0 && this.config == config
    {
      totalSockets := 0;
      totalProxyRequests := 0;
      this.config := config;
    }

    /**
     * `connection`: the socket takes the next socket id, then its formatted address. For a
     * `null` address `formatAddress` throws (`threw`): the id is already taken, the address
     * text is left as it was, and the rest of the handler does not run.
     */
    method OnConnection(socket: Socket, address: AddressData) returns (threw: bool)
      modifies this, socket
      ensures threw <==> address.Null?
      ensures totalSockets == old(totalSockets) + 1 && totalProxyRequests == old(totalProxyRequests)
      ensures socket.id == Some(totalSockets)
      ensures threw ==> socket.addressString == old(socket.addressString)
      ensures !threw ==> socket.addressString == FormatAddress(address)
      ensures socket.written == old(socket.written) && socket.ended == old(socket.ended)
      ensures socket.destroyed == old(socket.destroyed)
    {
      totalSockets := totalSockets + 1;
      socket.id := Some(totalSockets);
      var formatted := FormatAddress(address);
      if formatted.None? {
        return true;
      }
      socket.addressString := formatted;
      return false;
    }

    /**
     * `request`: replies at once, or hands back the upstream request with the next proxy-request
     * id; only a forwarded request takes an id.
     */
    method OnRequest(request: IncomingRequest, parsed: ParsedUrl, response: ServerResponse)
      returns (upstream: Option<UpstreamRequest>)
      requires IsAbsolute(parsed.pathname) && DistinctKeys(request.headers)
      requires !response.headersSent
      modifies this, response
      ensures totalSockets == old(totalSockets)
      ensures match Decide(request, parsed, config)
              case Reply(code) =>
                upstream == None && totalProxyRequests == old(totalProxyRequests) &&
                response.head == Some((code, ConnectionClose)) && response.headersSent && response.finished &&
                response.destroyed == old(response.destroyed)
              case Forward(target, httpMethod, headers) =>
                totalProxyRequests == old(totalProxyRequests) + 1 &&
                upstream == Some(UpstreamRequest(totalProxyRequests, target, httpMethod, headers)) &&
                response.head == old(response.head) && !response.headersSent &&
                response.finished == old(response.finished) && response.destroyed == old(response.destroyed)
    {
      var urlString := request.url;
      if urlString.Some? && |urlString.value| > 0 && urlString.value[0] == '/' {
        var safePathname := Resolve([parsed.pathname]);
        if safePathname == "/" {
          var sent := response.WriteHead(if request.httpMethod == "GET" || request.httpMethod == "HEAD" then 204 else 405, ConnectionClose);
          response.End();
          return None;
        }
        var matched := CheckRequiredHeaders(request.headers, config.requiredHeaders);
        if !matched {
          var sent := response.WriteHead(401, ConnectionClose);
          response.End();
          return None;
        }
        var target := TargetOf(parsed);
        var requestHeaders := ExcludeHeaders(request.headers, config.ignoredHeaderNames);
        requestHeaders := OverrideHeaders(requestHeaders);
        totalProxyRequests := totalProxyRequests + 1;
        var requestId := totalProxyRequests;
        return Some(UpstreamRequest(requestId, target, request.httpMethod, requestHeaders));
      }
      var sent := response.WriteHead(400, ConnectionClose);
      response.End();
      return None;
    }
  }

  /** The upstream response callback: its status code and headers go to the client response. */
  method OnUpstreamResponse(response: ServerResponse, statusCode: int, headers: Headers)
    modifies response
    ensures !old(response.headersSent) ==> response.head == Some((statusCode, headers))
    ensures old(response.headersSent) ==> response.head == old(response.head)
    ensures response.headersSent
    ensures response.finished == old(response.finished) && response.destroyed == old(response.destroyed)
  {
    var sent := response.WriteHead(statusCode, headers);
  }

  /**
   * The upstream error handler: 502 when nothing has been sent yet; once headers are out, the
   * response is destroyed and no second status line is written.
   */
  method OnUpstreamError(response: ServerResponse)
    modifies response
    ensures old(response.headersSent) ==> response.destroyed && response.head == old(response.head) &&
                                          response.finished == old(response.finished)
    ensures !old(response.headersSent) ==> response.head == Some((502, ConnectionClose)) && response.finished &&
                                           response.destroyed == old(response.destroyed)
    ensures response.headersSent
  {
    if response.headersSent {
      response.Destroy();
    } else {
      var sent := response.WriteHead(502, ConnectionClose);
      response.End();
    }
  }

  /**
   * The `upgrade` and `clientError` handlers: the raw 400 response is written, then the socket
   * ends and is destroyed; if building the response throws, nothing happens to the socket.
   * `date` stands for the current time as `toUTCString` writes it.
   */
  method RejectSocket(socket: Socket, date: string, reasons: map<int, string>)
    modifies socket
    ensures var r := RawResponse(400, [], "", date, reasons);
            if r.Success? then socket.written == old(socket.written) + [r.value] && socket.ended && socket.destroyed
            else socket.written == old(socket.written) && socket.ended == old(socket.ended) && socket.destroyed == old(socket.destroyed)
    ensures socket.id == old(socket.id) && socket.addressString == old(socket.addressString)
  {
    var r := ConstructRawHTTPServerResponse(400, [], "", date, reasons);
    if r.Success? {
      socket.written := socket.written + [r.value];
      socket.ended := true;
      socket.destroyed := true;
    }
  }
}
