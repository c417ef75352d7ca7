/** The HTTP middlewares (backend/utils/http/middlewares/middlewares.go): the static-file and swagger.json
    routes, the status-capturing response writer, and the request-logging rule. A handler's behaviour is
    the sequence of WriteHeader codes it issues; the clock and the logger's output are left out, a log
    line being the value the middleware would print. */
module Middlewares {
  import opened Wrappers
  import opened Text

  /** The parts of a request the middlewares read: the decoded URL path, its escaped form, and the Referer
      header. */
  datatype Request = Request(httpMethod: string, path: string, escapedPath: string, proto: string, host: string, referer: string)

  // ---------------------------------------------------------------------------------------------
  // Static files.

  datatype Route = Static(relPath: string) | Next

  /** NewFileServerMiddleware: paths under `baseURL` are served from the static folder with the prefix
      stripped; every other path goes to the next handler. */
  function FileServerRoute(baseURL: string, path: string): (r: Route)
    ensures r.Static? <==> HasPrefix(path, baseURL)
    ensures r.Static? ==> baseURL + r.relPath == path
  {
    if HasPrefix(path, baseURL) then
      assert path == path[..|baseURL|] + path[|baseURL|..];
      Static(path[|baseURL|..])
    else Next
  }

  // ---------------------------------------------------------------------------------------------
  // swagger.json.

  /** The host placeholder of the embedded swagger document. */
  const HostPlaceholder := "http://XXXHOSTXXX"

  /** An occurrence after the first character is an occurrence. */
  lemma ContainsInTail(s: string, pattern: string)
    requires |s| > 0
    ensures Contains(s[1..], pattern) ==> Contains(s, pattern)
  {
    if Contains(s[1..], pattern) {
      var i :| OccursAt(s[1..], pattern, i);
      assert s[1..][i..i + |pattern|] == s[i + 1..i + 1 + |pattern|];
      assert OccursAt(s, pattern, i + 1);
    }
  }

  /** strings.ReplaceAll for a non-empty pattern: every non-overlapping occurrence, left to right. A string
      without the pattern, and any string when the pattern is replaced by itself, is left as it is. */
  function ReplaceAll(s: string, pattern: string, replacement: string): (r: string)
    requires |pattern| > 0
    ensures !Contains(s, pattern) ==> r == s
    ensures replacement == pattern ==> r == s
    decreases |s|
  {
    if |s| < |pattern| then s
    else if s[..|pattern|] == pattern then
      assert OccursAt(s, pattern, 0);
      assert s == s[..|pattern|] + s[|pattern|..];
      replacement + ReplaceAll(s[|pattern|..], pattern, replacement)
    else
      ContainsInTail(s, pattern);
      assert s == [s[0]] + s[1..];
      [s[0]] + ReplaceAll(s[1..], pattern, replacement)
  }

  /** A string starting with the pattern: the replacement, then the rest replaced. */
  lemma ReplaceAtStart(pattern: string, b: string, replacement: string)
    requires |pattern| > 0
    ensures ReplaceAll(pattern + b, pattern, replacement) == replacement + ReplaceAll(b, pattern, replacement)
  {
    var s := pattern + b;
    assert s[..|pattern|] == pattern && s[|pattern|..] == b;
  }

  /** A string not starting with the pattern: its first character, then the rest replaced. */
  lemma ReplaceSkipsFirst(a: string, pattern: string, b: string, replacement: string)
    requires |pattern| > 0 && |a| > 0 && !OccursAt(a + pattern + b, pattern, 0)
    ensures ReplaceAll(a + pattern + b, pattern, replacement) == [a[0]] + ReplaceAll(a[1..] + pattern + b, pattern, replacement)
  {
    var s := a + pattern + b;
    assert s[1..] == a[1..] + pattern + b && s[0] == a[0];
  }

  /** No occurrence in `a + pattern + b` before the end of `a` means none in `a[1..] + pattern + b` before
      the end of `a[1..]`. */
  lemma NoOccurrenceInTail(a: string, pattern: string, b: string)
    requires |a| > 0
    requires forall i | 0 <= i < |a| :: !OccursAt(a + pattern + b, pattern, i)
    ensures forall i | 0 <= i < |a| - 1 :: !OccursAt(a[1..] + pattern + b, pattern, i)
  {
    var s, t := a + pattern + b, a[1..] + pattern + b;
    assert t == s[1..];
    forall i | 0 <= i < |a| - 1 ensures !OccursAt(t, pattern, i) {
      assert !OccursAt(s, pattern, i + 1);
      if i <= |t| - |pattern| {
        assert t[i..i + |pattern|] == s[i + 1..i + 1 + |pattern|];
      }
    }
  }

  lemma PrependFirst(a: string, tail: string)
    requires |a| > 0
    ensures [a[0]] + (a[1..] + tail) == a + tail
  {
    assert a == [a[0]] + a[1..];
  }

  /** One step of ReplaceFirstOccurrence: a first character that starts no occurrence is kept. */
  lemma ReplaceStep(a: string, pattern: string, b: string, replacement: string)
    requires |pattern| > 0 && |a| > 0 && !OccursAt(a + pattern + b, pattern, 0)
    requires ReplaceAll(a[1..] + pattern + b, pattern, replacement) == a[1..] + replacement + ReplaceAll(b, pattern, replacement)
    ensures ReplaceAll(a + pattern + b, pattern, replacement) == a + replacement + ReplaceAll(b, pattern, replacement)
  {
    var rest := ReplaceAll(b, pattern, replacement);
    ReplaceSkipsFirst(a, pattern, b, replacement);
    PrependFirst(a, replacement + rest);
    Associative(a[1..], replacement, rest);
    Associative(a, replacement, rest);
  }

  lemma Associative(x: string, y: string, z: string)
    ensures x + y + z == x + (y + z)
  {
  }

  /** Everything before the first occurrence is kept, that occurrence is replaced, and the replacement
      goes on after it. */
  lemma {:induction false} ReplaceFirstOccurrence(a: string, pattern: string, b: string, replacement: string)
    requires |pattern| > 0
    requires forall i | 0 <= i < |a| :: !OccursAt(a + pattern + b, pattern, i)
    ensures ReplaceAll(a + pattern + b, pattern, replacement) == a + replacement + ReplaceAll(b, pattern, replacement)
    decreases |a|
  {
    if a == [] {
      assert a + pattern + b == pattern + b;
      ReplaceAtStart(pattern, b, replacement);
    } else {
      NoOccurrenceInTail(a, pattern, b);
      ReplaceFirstOccurrence(a[1..], pattern, b, replacement);
      ReplaceStep(a, pattern, b, replacement);
    }
  }

  /** A document that starts with the pattern starts, once replaced, with the replacement. */
  lemma ReplaceLeading(s: string, pattern: string, replacement: string)
    requires |pattern| > 0 && HasPrefix(s, pattern)
    ensures HasPrefix(ReplaceAll(s, pattern, replacement), replacement)
  {
    var rest := ReplaceAll(s[|pattern|..], pattern, replacement);
    assert (replacement + rest)[..|replacement|] == replacement;
  }

  /** The host written into the swagger document: the configured host when set, otherwise the request's
      host with the scheme of the Referer, https unless the Referer is plain http. */
  function SwaggerHost(envHost: string, req: Request): (r: string)
    ensures envHost != "" ==> r == envHost
    ensures envHost == "" && HasPrefix(req.referer, "http://") ==> r == "http://" + req.host
    ensures envHost == "" && !HasPrefix(req.referer, "http://") ==> r == "https://" + req.host
  {
    var scheme1 := "https";
    var scheme2 := if HasPrefix(req.referer, "https://") then "https" else scheme1;
    var scheme := if HasPrefix(req.referer, "http://") then "http" else scheme2;
    var fromRequest := scheme + "://" + req.host;
    if envHost != "" then envHost else fromRequest
  }

  /** In a served document the first placeholder becomes the host, and what precedes it is kept. */
  lemma SwaggerHostWritten(swaggerURL: string, before: string, after: string, envHost: string, req: Request)
    requires req.path == swaggerURL
    requires forall i | 0 <= i < |before| :: !OccursAt(before + HostPlaceholder + after, HostPlaceholder, i)
    ensures SwaggerJSON(swaggerURL, before + HostPlaceholder + after, envHost, req).body ==
      before + SwaggerHost(envHost, req) + ReplaceAll(after, HostPlaceholder, SwaggerHost(envHost, req))
  {
    ReplaceFirstOccurrence(before, HostPlaceholder, after, SwaggerHost(envHost, req));
  }

  datatype SwaggerReply = SwaggerDoc(contentType: string, body: string) | PassOn

  /** NewSwaggerJSONMiddleware: the swagger URL is answered with the document, its host placeholder
      replaced; every other path goes to the next handler. */
  function SwaggerJSON(swaggerURL: string, document: string, envHost: string, req: Request): (r: SwaggerReply)
    ensures r.SwaggerDoc? <==> req.path == swaggerURL
    ensures r.SwaggerDoc? ==> r.contentType == "application/json"
    ensures r.SwaggerDoc? ==> r.body == ReplaceAll(document, HostPlaceholder, SwaggerHost(envHost, req))
    ensures r.SwaggerDoc? && !Contains(document, HostPlaceholder) ==> r.body == document
  {
    if req.path == swaggerURL then
      SwaggerDoc("application/json", ReplaceAll(document, HostPlaceholder, SwaggerHost(envHost, req)))
    else PassOn
  }

  // ---------------------------------------------------------------------------------------------
  // Response writer.

  /** The wrapping writer: the recorded status, whether a header was written, and the codes forwarded to
      the wrapped writer. */
  datatype ResponseWriter = ResponseWriter(status: int, wroteHeader: bool, forwarded: seq<int>)

  /** wrapResponseWriter */
  function Wrap(): (r: ResponseWriter)
    ensures r.status == 200 && !r.wroteHeader && r.forwarded == []
  {
    ResponseWriter(200, false, [])
  }

  /** responseWriter.WriteHeader: the first call records and forwards its code, later ones do nothing. */
  function WriteHeader(rw: ResponseWriter, code: int): (r: ResponseWriter)
    ensures r.wroteHeader
    ensures rw.wroteHeader ==> r == rw
    ensures !rw.wroteHeader ==> r.status == code && r.forwarded == rw.forwarded + [code]
  {
    if rw.wroteHeader then rw
    else ResponseWriter(code, true, rw.forwarded + [code])
  }

  /** A handler issuing `codes` to the writer in turn. */
  function WriteHeaders(rw: ResponseWriter, codes: seq<int>): ResponseWriter
    decreases |codes|
  {
    if codes == [] then rw else WriteHeaders(WriteHeader(rw, codes[0]), codes[1..])
  }

  /** Whatever a handler does, the wrapped writer reports the first code it wrote, 200 when it wrote none,
      and exactly that first code is forwarded. */
  lemma {:induction false} FirstWriteWins(codes: seq<int>)
    ensures codes == [] ==> WriteHeaders(Wrap(), codes) == Wrap()
    ensures codes != [] ==> WriteHeaders(Wrap(), codes) == ResponseWriter(codes[0], true, [codes[0]])
  {
    if codes != [] {
      LaterWritesIgnored(WriteHeader(Wrap(), codes[0]), codes[1..]);
    }
  }

  /** Once a header was written, further writes change nothing. */
  lemma {:induction false} LaterWritesIgnored(rw: ResponseWriter, codes: seq<int>)
    requires rw.wroteHeader
    ensures WriteHeaders(rw, codes) == rw
    decreases |codes|
  {
    if codes != [] {
      LaterWritesIgnored(WriteHeader(rw, codes[0]), codes[1..]);
    }
  }

  // ---------------------------------------------------------------------------------------------
  // Logging.

  /** The fields of one access-log line (the elapsed time is left out). */
  datatype LogLine = LogLine(httpMethod: string, path: string, proto: string, status: int)

  /** The ignore loop: whether some prefix starts the path. */
  function IgnoredBy(prefixes: seq<string>, path: string): bool
    decreases |prefixes|
  {
    if prefixes == [] then false else HasPrefix(path, prefixes[0]) || IgnoredBy(prefixes[1..], path)
  }

  lemma {:induction false} IgnoredByIsSome(prefixes: seq<string>, path: string)
    ensures IgnoredBy(prefixes, path) <==> exists i | 0 <= i < |prefixes| :: HasPrefix(path, prefixes[i])
    decreases |prefixes|
  {
    if prefixes != [] {
      IgnoredByIsSome(prefixes[1..], path);
      assert forall i | 1 <= i < |prefixes| :: prefixes[i] == prefixes[1..][i - 1];
    }
  }

  /** NewLoggingMiddlewareWithOptions around a handler issuing `codes`: the writer after the handler, and
      the log line, absent when an ignored prefix starts the escaped path. */
  function LogRequest(prefixes: seq<string>, req: Request, codes: seq<int>): (r: (ResponseWriter, Option<LogLine>))
    ensures r.1.None? <==> exists i | 0 <= i < |prefixes| :: HasPrefix(req.escapedPath, prefixes[i])
    ensures r.1.Some? ==> r.1.value.httpMethod == req.httpMethod && r.1.value.path == req.escapedPath && r.1.value.proto == req.proto
    ensures r.1.Some? ==> r.1.value.status == (if codes == [] then 200 else codes[0])
    ensures r.0.forwarded == (if codes == [] then [] else [codes[0]])
  {
    var wrapped := WriteHeaders(Wrap(), codes);
    FirstWriteWins(codes);
    IgnoredByIsSome(prefixes, req.escapedPath);
    if IgnoredBy(prefixes, req.escapedPath) then (wrapped, None)
    else (wrapped, Some(LogLine(req.httpMethod, req.escapedPath, req.proto, wrapped.status)))
  }

  /** NewLoggingMiddleware logs every request: it is the variant without ignored prefixes. */
  lemma PlainLoggingLogsAll(req: Request, codes: seq<int>)
    ensures LogRequest([], req, codes).1.Some?
  {
  }
}
