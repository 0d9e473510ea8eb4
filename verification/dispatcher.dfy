/** The request handler `onHandle` and `setResponseHeadersIfNotNull`.

    Dispatch is a read-only function of the registry and the request: its
    result is the sequence of calls made on the servlet response, and
    `Render` interprets those calls as the state the servlet response receives. */
module Dispatcher {
  import opened Wrappers
  import opened Multimaps
  import opened RequestPatterns
  import opened Responses
  import opened Canonicalization
  import opened StubRegistry

  /** `HttpServletResponse.SC_NOT_FOUND` (section 15.5.5 of RFC 9110). */
  const NotFound: int := 404

  /** `HttpServletResponse.SC_OK`, the status of a response nobody set. */
  const Ok: int := 200

  /** The calls the handler makes on the servlet response and the base request. */
  datatype SinkCall =
    | AddHeader(name: string, value: string)
    | SetStatus(status: int)
    | SetContentType(contentType: string)
    | SetCharacterEncoding(encoding: string)
    | WriteBody(body: string)
    | MarkHandled

  /** The state a servlet response is left in by the handler's calls. */
  datatype ServletResponse = ServletResponse(
    status: int,
    headers: seq<Header>,
    contentType: Option<string>,
    encoding: Option<string>,
    body: string,
    handled: bool)

  const Untouched := ServletResponse(Ok, [], None, None, "", false)

  function Apply(s: ServletResponse, call: SinkCall): ServletResponse
  {
    match call
    case AddHeader(name, value) => s.(headers := s.headers + [Pair(name, value)])
    case SetStatus(status) => s.(status := status)
    case SetContentType(contentType) => s.(contentType := Some(contentType))
    case SetCharacterEncoding(encoding) => s.(encoding := Some(encoding))
    case WriteBody(body) => s.(body := s.body + body)
    case MarkHandled => s.(handled := true)
  }

  function RenderFrom(s: ServletResponse, calls: seq<SinkCall>): ServletResponse
    decreases |calls|
  {
    if calls == [] then s else RenderFrom(Apply(s, calls[0]), calls[1..])
  }

  /** The response observed after the calls, starting from an untouched one. */
  function Render(calls: seq<SinkCall>): ServletResponse
  {
    RenderFrom(Untouched, calls)
  }

  lemma {:induction false} RenderFromAppend(s: ServletResponse, a: seq<SinkCall>, b: seq<SinkCall>)
    ensures RenderFrom(s, a + b) == RenderFrom(RenderFrom(s, a), b)
    decreases |a|
  {
    if a == [] {
      assert a + b == b;
    } else {
      assert (a + b)[1..] == a[1..] + b;
      RenderFromAppend(Apply(s, a[0]), a[1..], b);
    }
  }

  /** `addHeader` for each entry, in order. */
  function AddHeaderCalls(headers: seq<Header>): (r: seq<SinkCall>)
    ensures |r| == |headers|
    ensures forall i :: 0 <= i < |r| ==> r[i] == AddHeader(headers[i].name, headers[i].value)
    decreases |headers|
  {
    if headers == [] then []
    else [AddHeader(headers[0].name, headers[0].value)] + AddHeaderCalls(headers[1..])
  }

  /** Adding the headers appends exactly the entries, in order, and changes
      nothing else. */
  lemma {:induction false} RenderAddHeaderCalls(s: ServletResponse, headers: seq<Header>)
    ensures RenderFrom(s, AddHeaderCalls(headers)) == s.(headers := s.headers + headers)
    decreases |headers|
  {
    if headers != [] {
      var calls := AddHeaderCalls(headers);
      assert calls[1..] == AddHeaderCalls(headers[1..]);
      var s' := Apply(s, calls[0]);
      RenderAddHeaderCalls(s', headers[1..]);
      assert s'.headers + headers[1..] == s.headers + headers;
    }
  }

  /** The header entries a response carries; a null list carries none. */
  function HeaderEntries(headers: Option<seq<Header>>): seq<Header>
  {
    if headers.Some? then headers.value else []
  }

  /** `setResponseHeadersIfNotNull`: nothing for a null or empty list,
      otherwise one `addHeader` per entry, in order. */
  function ResponseHeaderCalls(headers: Option<seq<Header>>): (r: seq<SinkCall>)
    ensures |r| == |HeaderEntries(headers)|
    ensures forall i :: 0 <= i < |r| ==>
      r[i] == AddHeader(HeaderEntries(headers)[i].name, HeaderEntries(headers)[i].value)
  {
    if headers.None? || |headers.value| <= 0 then []
    else AddHeaderCalls(headers.value)
  }

  /** `onHandle` after the body has been read: canonicalize with the header
      names the stubs mention, then either answer 404 alone or replay the
      stub's headers, status, content type, encoding and body. */
  function Dispatch(registry: Registry, request: InboundRequest): (calls: seq<SinkCall>)
    ensures |calls| >= 2 && calls[|calls| - 1] == MarkHandled
  {
    var pattern := Canonicalize(request, RegisteredHeaderNames(registry));
    match Lookup(registry, pattern)
    case None => [SetStatus(NotFound), MarkHandled]
    case Some(response) =>
      ResponseHeaderCalls(response.responseHeaders)
        + [SetStatus(response.status), SetContentType(response.contentType),
           SetCharacterEncoding(response.encoding), WriteBody(response.body), MarkHandled]
  }

  /** The pattern a request is looked up by. */
  function LookupKey(registry: Registry, request: InboundRequest): RequestPattern
  {
    Canonicalize(request, RegisteredHeaderNames(registry))
  }

  /** An inbound header is part of the lookup key iff some registered pattern
      mentions its name, and then with all its values in arrival order. */
  lemma LookupKeyHeaders(registry: Registry, request: InboundRequest, name: string)
    ensures var headers := LookupKey(registry, request).requestHeaders.value;
      var mentioned := exists p :: p in registry && p.requestHeaders.Some? && name in p.requestHeaders.value;
      && (name in headers <==> mentioned && ValuesNamed(request.headers, name) != [])
      && (mentioned ==> Get(headers, name) == ValuesNamed(request.headers, name))
  {
    CanonicalHeaders(request, RegisteredHeaderNames(registry), name);
  }

  /** On a miss the servlet response gets a bare 404: no header, no content type, no
      encoding, no body; the request is handled. */
  lemma DispatchMiss(registry: Registry, request: InboundRequest)
    requires LookupKey(registry, request) !in registry
    ensures Render(Dispatch(registry, request)) == ServletResponse(NotFound, [], None, None, "", true)
  {
    var calls := [SetStatus(NotFound), MarkHandled];
    assert Dispatch(registry, request) == calls;
    assert calls[1..][1..] == [];
    assert RenderFrom(Untouched, calls) == RenderFrom(Untouched.(status := NotFound), [MarkHandled]);
  }

  /** On a hit the servlet response gets exactly the stub's status, headers (one per
      entry, in order), content type, encoding and body. */
  lemma DispatchHit(registry: Registry, request: InboundRequest)
    requires LookupKey(registry, request) in registry
    ensures var response := registry[LookupKey(registry, request)];
      Render(Dispatch(registry, request))
        == ServletResponse(response.status, HeaderEntries(response.responseHeaders),
                           Some(response.contentType), Some(response.encoding), response.body, true)
  {
    var response := registry[LookupKey(registry, request)];
    var headerCalls := ResponseHeaderCalls(response.responseHeaders);
    var tail := [SetStatus(response.status), SetContentType(response.contentType),
                 SetCharacterEncoding(response.encoding), WriteBody(response.body), MarkHandled];
    assert Lookup(registry, LookupKey(registry, request)) == Some(response);
    assert Dispatch(registry, request) == headerCalls + tail;
    RenderFromAppend(Untouched, headerCalls, tail);
    assert headerCalls == AddHeaderCalls(HeaderEntries(response.responseHeaders));
    RenderAddHeaderCalls(Untouched, HeaderEntries(response.responseHeaders));
    var s := Untouched.(headers := HeaderEntries(response.responseHeaders));
    assert Untouched.headers + HeaderEntries(response.responseHeaders) == HeaderEntries(response.responseHeaders);
    RenderTail(s, response);
  }

  /** Status, content type, encoding and body overwrite their fields, then
      the request is marked handled. */
  lemma RenderTail(s: ServletResponse, response: Response)
    requires s.body == ""
    ensures RenderFrom(s, [SetStatus(response.status), SetContentType(response.contentType),
                           SetCharacterEncoding(response.encoding), WriteBody(response.body), MarkHandled])
         == s.(status := response.status, contentType := Some(response.contentType),
               encoding := Some(response.encoding), body := response.body, handled := true)
  {
    var calls := [SetStatus(response.status), SetContentType(response.contentType),
                  SetCharacterEncoding(response.encoding), WriteBody(response.body), MarkHandled];
    var s1 := Apply(s, calls[0]);
    var s2 := Apply(s1, calls[1]);
    var s3 := Apply(s2, calls[2]);
    var s4 := Apply(s3, calls[3]);
    var s5 := Apply(s4, calls[4]);
    assert RenderFrom(s, calls) == RenderFrom(s1, calls[1..]);
    assert RenderFrom(s1, calls[1..]) == RenderFrom(s2, calls[2..]);
    assert RenderFrom(s2, calls[2..]) == RenderFrom(s3, calls[3..]);
    assert RenderFrom(s3, calls[3..]) == RenderFrom(s4, calls[4..]);
    assert RenderFrom(s4, calls[4..]) == RenderFrom(s5, calls[5..]);
    assert calls[5..] == [];
    assert s4.body == response.body;
  }

  /** A stub registered without headers is never served: every inbound
      pattern carries a header multimap. */
  lemma HeaderlessStubNeverServed(registry: Registry, request: InboundRequest, p: RequestPattern)
    requires p in registry && p.requestHeaders.None?
    ensures LookupKey(registry, request) != p
  {
  }

  /** Registering a stub without headers changes how no request is served. */
  lemma HeaderlessStubChangesNoDispatch(registry: Registry, p: RequestPattern, response: Response, request: InboundRequest)
    requires p.requestHeaders.None?
    ensures Dispatch(registry[p := response], request) == Dispatch(registry, request)
  {
    HeaderlessStubAddsNoNames(registry, p, response);
  }

  /** The exception `onHandle` lets escape to Jetty. */
  datatype HandlerError = NullPointer

  /** `onHandle` as written: the header-name collection throws once a stub
      without headers is registered, before anything is written or the
      request is marked handled. Otherwise it is `Dispatch`. */
  function DispatchAsWritten(registry: Registry, request: InboundRequest): (r: Result<seq<SinkCall>, HandlerError>)
    ensures r.Failure? <==> exists p :: p in registry && p.requestHeaders.None?
  {
    match RegisteredHeaderNamesAsWritten(registry)
    case None => Failure(NullPointer)
    case Some(names) =>
      var pattern := Canonicalize(request, names);
      match Lookup(registry, pattern)
      case None => Success([SetStatus(NotFound), MarkHandled])
      case Some(response) =>
        Success(ResponseHeaderCalls(response.responseHeaders)
          + [SetStatus(response.status), SetContentType(response.contentType),
             SetCharacterEncoding(response.encoding), WriteBody(response.body), MarkHandled])
  }

  /** As long as every stub has a header multimap, the handler as written and
      the corrected `Dispatch` make the same calls. */
  lemma DispatchAsWrittenAgrees(registry: Registry, request: InboundRequest)
    requires forall p :: p in registry ==> p.requestHeaders.Some?
    ensures DispatchAsWritten(registry, request) == Success(Dispatch(registry, request))
  {
  }

  /** As written, one stub without headers makes every request fail, whatever
      else is registered. */
  lemma HeaderlessStubFailsEveryRequestAsWritten(registry: Registry, p: RequestPattern, response: Response, request: InboundRequest)
    requires p.requestHeaders.None?
    ensures DispatchAsWritten(registry[p := response], request) == Failure(NullPointer)
  {
    assert p in registry[p := response];
  }
}
