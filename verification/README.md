# Request matching of an in-process mock HTTP server

A Dafny model of the matching engine of `HttpRequestTestCase`. Tests use this
JUnit base class to stub HTTP calls: they register `RequestPattern` → `Response`
pairs with `addResponse`. An embedded Jetty server then answers each inbound
request with the response whose pattern equals the request's canonical
pattern, or with 404 Not Found.

The model is functional:

- `wrappers.dfy` defines `Option` (a Java reference that may be null) and
  `Result` (an operation that may throw).
- `multimaps.dfy` models Guava's `ListMultimap<String, V>` as a
  `map<string, seq<V>>` that holds no empty value list; on such maps Dafny's
  map equality is Guava's `equals`, and the pattern constructors require it. `Group`
  builds a multimap from (name, value) entries in arrival order. `ValuesOf` is
  the reference definition of "the values of one name".
- `request_pattern.dfy` holds `RequestPattern`:
  - its two constructors;
  - `equals`, as a chain of `EqualsBuilder.append` steps with null handling;
  - `hashCode`, as a function of the three fields.
- `response.dfy` holds the immutable `Response` and its two constructors. The
  platform default charset is a `Platform` parameter.
- `canonicalization.dfy` turns an inbound request into its pattern:
  - POST and PUT are keyed by the raw body;
  - every other method is keyed by the decoded parameters, and blank values
    become absent;
  - only headers named by a registered pattern are kept.
- `stub_registry.dfy` models the `responseMap` registry, `addResponse` and
  lookup, plus `getOriginalRequestHeaderNames`.
- `dispatcher.dfy` models `onHandle` and `setResponseHeadersIfNotNull`:
  - dispatch returns the sequence of calls made on the servlet response;
  - `Render` interprets those calls as the state the servlet response
    receives;
  - `DispatchAsWritten` is the handler as written, which fails once a stub
    without headers is registered, and `Dispatch` the corrected handler the
    rest of the model uses.
- `urls.dfy` models `URL` and `getUrl`.
- `scenarios.dfy` works through concrete stubs: a GET matched on a parameter,
  a POST matched on its body, and two stubs told apart by a header.

Modelling choices:

- **Parameter key.** The handler builds a pattern from a body `String` or a
  `List<NameValuePair>`, but `RequestPattern.java` stores `ListMultimap`s. The
  model uses a sum type, `RawBody(body) | Fields(multimap of optional values)`.
  The handler's flat entry lists are kept as an intermediate step
  (`AllParameterPairs`, `KeptHeaderPairs`) and then grouped into the multimap
  the pattern holds.
- **Request headers** are `Option<Multimap<string>>`. `None` is the null that
  the two-argument constructor stores.
- **Header order.** Per-name value order is kept; the order of different
  header names is irrelevant, as with Guava `ListMultimap` equality
  (`CanonicalIgnoresHeaderNameOrder`). Nothing is sorted.
- **Response headers** are kept as the ordered entry list the dispatcher
  iterates, because the order of the `addHeader` calls is observable.
- **Dispatch is read-only.** It is a function of the registry and the request,
  so it cannot change the registry. Patterns and responses are treated as
  values; see "## Left out" for the multimaps they share with the caller.

Behaviour of the code worth knowing:

- The code does not sort headers before storing or comparing them.
- Registration rejects only null arguments, not empty ones.
- A pattern built without headers never matches an inbound request, because
  `EqualsBuilder` treats null and an empty multimap as different.

## Model

| member | source | states |
|---|---|---|
| Multimaps.Group | library/src/main/java/com/chuross/testcase/http/RequestPattern.java:10-11 | a grouped multimap never holds a key without values, and every key comes from some entry |
| Multimaps.GroupValues | library/src/main/java/com/chuross/testcase/http/RequestPattern.java:10-11 | under every name, the grouped multimap holds exactly that name's entry values in arrival order |
| Multimaps.GroupKeys | library/src/main/java/com/chuross/testcase/http/RequestPattern.java:10-11 | a name is a key of the grouped multimap iff some entry carries it |
| Multimaps.GroupSameValues | library/src/main/java/com/chuross/testcase/http/RequestPattern.java:44 | entry lists that agree name by name on values and their order group to equal multimaps, however names interleave |
| Multimaps.GroupEqualSameValues | library/src/main/java/com/chuross/testcase/http/RequestPattern.java:44 | conversely, equal groupings agree on every name's ordered values |
| Multimaps.WellFormedExtensional | library/src/main/java/com/chuross/testcase/http/RequestPattern.java:44 | two multimaps without empty value lists are equal once `get` agrees on every key |
| Canonicalization.ParameterPairs | library/src/main/java/com/chuross/testcase/http/HttpRequestTestCase.java:81-89 | one entry per value, in order, all under the given name; a value is absent iff it is blank, otherwise it is kept verbatim |
| Canonicalization.AllParameterPairsValues | library/src/main/java/com/chuross/testcase/http/HttpRequestTestCase.java:72-89 | the flat parameter list holds, under each name, that name's normalized values in arrival order |
| Canonicalization.HeaderPairs | library/src/main/java/com/chuross/testcase/http/HttpRequestTestCase.java:114-121 | one header entry per value of the name, verbatim and in order |
| Canonicalization.KeptHeaderPairsValues | library/src/main/java/com/chuross/testcase/http/HttpRequestTestCase.java:91-103 | a header name keeps all its values, in order, iff it is registered, and keeps none otherwise |
| Canonicalization.Canonicalize | library/src/main/java/com/chuross/testcase/http/HttpRequestTestCase.java:55 | the path is the target; the key is the raw body iff the method is POST or PUT; the headers are always present |
| Canonicalization.CanonicalParameters | library/src/main/java/com/chuross/testcase/http/HttpRequestTestCase.java:72-89 | for other methods, each name maps to its normalized values in arrival order, and it is a key iff the request carried a value for it |
| Canonicalization.CanonicalHeaders | library/src/main/java/com/chuross/testcase/http/HttpRequestTestCase.java:91-121 | an inbound header survives iff its name is registered and it has a value; then all its values are kept, in order |
| Canonicalization.CanonicalIgnoresParameterNameOrder | library/src/main/java/com/chuross/testcase/http/RequestPattern.java:44 | requests that agree name by name on parameter values give the same pattern, whatever order the handler's enumeration (HttpRequestTestCase.java:72-79) lists the names in, because multimap equality ignores it |
| Canonicalization.CanonicalIgnoresHeaderNameOrder | library/src/main/java/com/chuross/testcase/http/RequestPattern.java:44 | requests that agree name by name on header values give the same pattern, whatever order the handler's enumeration (HttpRequestTestCase.java:91-103) lists the names in |
| RequestPatterns.NewPattern | library/src/main/java/com/chuross/testcase/http/RequestPattern.java:13-15 | the two-argument constructor keeps path and parameters and has absent headers |
| RequestPatterns.NewPatternWithHeaders | library/src/main/java/com/chuross/testcase/http/RequestPattern.java:17-33 | the getters return exactly the three constructor arguments, which are multimaps without empty value lists |
| RequestPatterns.EqualsIffFieldsEqual | library/src/main/java/com/chuross/testcase/http/RequestPattern.java:44 | two patterns are equal iff path, parameters and request headers are each equal |
| RequestPatterns.EqualsIsValueEquality | library/src/main/java/com/chuross/testcase/http/RequestPattern.java:35-45 | `equals` coincides with value equality, so a map keyed by patterns behaves as the hash map does as long as no key's multimaps are mutated after registration |
| RequestPatterns.EqualsReflexive | library/src/main/java/com/chuross/testcase/http/RequestPattern.java:37-39 | every pattern equals itself |
| RequestPatterns.EqualsSymmetric | library/src/main/java/com/chuross/testcase/http/RequestPattern.java:44 | equality is symmetric |
| RequestPatterns.EqualsTransitive | library/src/main/java/com/chuross/testcase/http/RequestPattern.java:44 | equality is transitive |
| RequestPatterns.EqualsRejectsNonPatterns | library/src/main/java/com/chuross/testcase/http/RequestPattern.java:40-42 | null and objects of other classes are never equal to a pattern |
| RequestPatterns.EqualPatternsEqualHash | library/src/main/java/com/chuross/testcase/http/RequestPattern.java:47-50 | equal patterns have equal hash codes, whatever the per-field hashing is |
| RequestPatterns.AbsentHeadersNeverEqualPresent | library/src/main/java/com/chuross/testcase/http/RequestPattern.java:44 | a pattern with absent headers is never equal, either way round, to one with a header multimap, even an empty one |
| Responses.NewResponse | library/src/main/java/com/chuross/testcase/http/Response.java:16-18 | the four-argument constructor keeps its arguments and takes the platform default charset as encoding |
| Responses.NewResponseWithEncoding | library/src/main/java/com/chuross/testcase/http/Response.java:20-46 | the getters return exactly the five constructor arguments |
| StubRegistry.AddResponse | library/src/main/java/com/chuross/testcase/http/HttpRequestTestCase.java:138-144 | fails with an illegal-argument error iff an argument is null; otherwise the pattern is added to the keys, every equal pattern now yields the new response, and entries of non-equal patterns are unchanged |
| StubRegistry.Lookup | library/src/main/java/com/chuross/testcase/http/HttpRequestTestCase.java:58-63 | a response is found iff some registered pattern equals the key, and it is that pattern's response |
| StubRegistry.LastRegistrationWins | library/src/main/java/com/chuross/testcase/http/HttpRequestTestCase.java:142 | after two registrations under equal patterns, lookup yields the later response |
| StubRegistry.RegisteredHeaderNamesAsWritten | library/src/main/java/com/chuross/testcase/http/HttpRequestTestCase.java:104-112 | the name collection as written fails iff some registered pattern has absent headers, and otherwise yields the registered names |
| StubRegistry.HeaderlessStubBreaksNamesAsWritten | library/src/main/java/com/chuross/testcase/http/HttpRequestTestCase.java:106-108 | as written, registering one pattern with absent headers makes the name collection fail |
| StubRegistry.HeaderlessStubAddsNoNames | library/src/main/java/com/chuross/testcase/http/HttpRequestTestCase.java:104-112 | when absent headers are read as no names, such a pattern leaves the registered names unchanged |
| Dispatcher.AddHeaderCalls | library/src/main/java/com/chuross/testcase/http/HttpRequestTestCase.java:127-129 | one `addHeader` per entry, with its name and value, in list order |
| Dispatcher.RenderAddHeaderCalls | library/src/main/java/com/chuross/testcase/http/HttpRequestTestCase.java:127-129 | those calls append exactly the entries, in order, to the response's headers and change nothing else |
| Dispatcher.ResponseHeaderCalls | library/src/main/java/com/chuross/testcase/http/HttpRequestTestCase.java:123-130 | no call for a null or empty list; otherwise one `addHeader` per entry, in order |
| Dispatcher.Dispatch | library/src/main/java/com/chuross/testcase/http/HttpRequestTestCase.java:52-70 | with the corrected header-name set, every request ends with the request marked handled |
| Dispatcher.DispatchAsWritten | library/src/main/java/com/chuross/testcase/http/HttpRequestTestCase.java:52-112 | the handler as written fails with a null-pointer error iff some registered stub has no header multimap |
| Dispatcher.DispatchAsWrittenAgrees | library/src/main/java/com/chuross/testcase/http/HttpRequestTestCase.java:52-112 | when every stub has a header multimap, the handler as written makes exactly the calls of `Dispatch` |
| Dispatcher.HeaderlessStubFailsEveryRequestAsWritten | library/src/main/java/com/chuross/testcase/http/HttpRequestTestCase.java:94-108 | as written, registering one stub without headers makes every request fail, whatever else is registered |
| Dispatcher.LookupKeyHeaders | library/src/main/java/com/chuross/testcase/http/HttpRequestTestCase.java:91-112 | an inbound header is in the lookup key iff some registered pattern mentions its name and it has a value; then all its values are kept in order |
| Dispatcher.DispatchMiss | library/src/main/java/com/chuross/testcase/http/HttpRequestTestCase.java:58-62 | on a miss the servlet response receives status 404 with no header, no content type, no encoding and no body, and the request is handled |
| Dispatcher.DispatchHit | library/src/main/java/com/chuross/testcase/http/HttpRequestTestCase.java:63-69 | on a hit the servlet response receives exactly the stub's status, its header entries in order, its content type, encoding and body, and the request is handled |
| Dispatcher.RenderTail | library/src/main/java/com/chuross/testcase/http/HttpRequestTestCase.java:65-69 | status, content type and encoding are set, the body is written, and the request is marked handled |
| Dispatcher.HeaderlessStubNeverServed | library/src/main/java/com/chuross/testcase/http/HttpRequestTestCase.java:55-58 | a stub registered with absent headers is never the lookup key of any request |
| Dispatcher.HeaderlessStubChangesNoDispatch | library/src/main/java/com/chuross/testcase/http/HttpRequestTestCase.java:104-112 | with absent headers read as no names, registering a header-less stub changes how no request is served |
| Urls.DecimalString | library/src/main/java/com/chuross/testcase/http/HttpRequestTestCase.java:35 | `%d` gives a non-empty string of decimal digits without a leading zero |
| Urls.DecimalRoundTrip | library/src/main/java/com/chuross/testcase/http/HttpRequestTestCase.java:35 | reading the formatted digits back gives the number |
| Urls.BaseUrlIsLocalhost3000 | library/src/main/java/com/chuross/testcase/http/HttpRequestTestCase.java:33-35 | the base URL is `http://localhost:3000` |
| Urls.GetUrl | library/src/main/java/com/chuross/testcase/http/HttpRequestTestCase.java:146-148 | the URL is the base URL and "/" followed by the path, of which exactly one leading "/" is dropped if present |
| Urls.GetUrlIgnoresLeadingSlash | library/src/main/java/com/chuross/testcase/http/HttpRequestTestCase.java:147 | a path with one leading "/" and the same path without it give the same URL |
| Urls.GetUrlRemovesOneSlashOnly | library/src/main/java/com/chuross/testcase/http/HttpRequestTestCase.java:147 | of two leading slashes only the first is dropped |
| Scenarios.UsersScenario | library/src/main/java/com/chuross/testcase/http/HttpRequestTestCase.java:52-89 | a GET to `/users?id=42` gets the stubbed 200 JSON response, and `id=43` gets a bare 404 |
| Scenarios.EchoScenario | library/src/main/java/com/chuross/testcase/http/HttpRequestTestCase.java:52-70 | a POST is matched on its raw body: `hello` gets 201 "ok", and `goodbye` gets a bare 404 |
| Scenarios.TenantRouted | library/src/main/java/com/chuross/testcase/http/HttpRequestTestCase.java:91-121 | of two stubs that differ only in `X-Tenant`, a request with `X-Tenant: a` gets the first stub's response and one with `X-Tenant: b` gets the second's |
| Scenarios.TenantScenarioUnknown | library/src/main/java/com/chuross/testcase/http/HttpRequestTestCase.java:91-121 | a request with a tenant no stub mentions is not found |

## Findings

| source | as written | input that shows it | evidently intended | confidence | as-written member | corrected member |
|---|---|---|---|---|---|---|
| library/src/main/java/com/chuross/testcase/http/HttpRequestTestCase.java:106-108 | `getOriginalRequestHeaderNames` iterates every registered pattern's header list without a null check. The two-argument `RequestPattern` constructor stores null headers. | `addResponse(new RequestPattern("/a", params), r)`, then any request: the handler throws `NullPointerException`, for every request and not only for requests to `/a` | a pattern without headers mentions no header names, and the other stubs keep being served | low, not executed; the handler and the pattern class come from versions that do not compile together | Dispatcher.HeaderlessStubFailsEveryRequestAsWritten | Dispatcher.HeaderlessStubChangesNoDispatch |

## Left out

- Server lifecycle (`beforeServerTest`, `afterServerTest`): binding the socket, and starting, stopping and destroying Jetty. This is transport I/O.
- Reading the body stream and closing it quietly: the body is given as a string. Logging is also left out; it does not affect behaviour.
- Concurrent Jetty worker threads: dispatch is a read-only function of the registry.
- The concrete constants of `HashCodeBuilder`, and the hash codes of `String` and of Guava multimaps. The hash is modelled as an arbitrary function of the three fields.
- `MediaType` and `Charset` internals. Both are kept as strings, and the platform default charset is a parameter. The effect of a charset parameter inside the content type on the servlet's encoding is not modelled.
- Null paths, null parameter keys, null bodies, null content types, null encodings and null strings inside lists; the last two would flow into `setContentType` and `setCharacterEncoding` (HttpRequestTestCase.java:66-67). Request headers are modelled as possibly null because the two-argument pattern constructor stores null (RequestPattern.java:14); response headers because the handler tests for null (HttpRequestTestCase.java:124). A null body would make the handler throw at the body write (HttpRequestTestCase.java:68), after status, headers, content type and encoding were already set; that path is not modelled.
- Java strings are UTF-16 code units, while Dafny characters are Unicode scalar values. The whitespace test lists the characters Java 8's `Character.isWhitespace` accepts (Unicode 6.2, where U+180E is a space separator); later JDKs drop U+180E. Surrogate pairs are not modelled.
- Canonicalization.Canonicalize — keys headers by a multimap, as `RequestPattern.java` stores them. The handler's own version builds a `List<Header>` in enumeration order (HttpRequestTestCase.java:91-103); a pattern keyed by that list would compare headers positionally, so two requests that list different header names in different orders would not match. The model does not capture that version's behaviour.
- Aliasing: `RequestPattern` and `Response` keep the caller's multimaps by reference (RequestPattern.java:17-21, Response.java:20-26), and the hash map's buckets depend on them (RequestPattern.java:49). The model treats patterns and responses as values, so it does not model a caller who mutates a multimap after `addResponse`, which would leave the entry in a stale bucket or change the headers served.
- Dispatcher.Dispatch — models `onHandle` with the corrected header-name set, in which a stub without headers mentions no names. The handler as written throws a `NullPointerException` on every request once such a stub is registered, before marking the request handled; that behaviour is `DispatchAsWritten`, and `DispatchMiss`, `DispatchHit` and `LookupKeyHeaders` describe the corrected handler.
- Dispatcher.Render — records the calls the servlet response receives, not the bytes a client reads. Jetty adds headers of its own, and `setContentType` replaces a `Content-Type` header added earlier from the stub's header list; the model keeps that entry as well as the content type.
- Urls.DecimalString — `String.format` with `%d` formats with the default locale's digits; the model writes ASCII digits, as a locale with ASCII digits does.
- Header-name case: names are compared exactly, as `List.contains` does. The servlet container's case-insensitive header lookup is not modelled.
- The type mismatches between versions: the handler passes a `String` or a `List` where the pattern class takes multimaps, and it calls `getResponseheaders`. The model reconciles them as described above.
- A default status of 200 for a response nobody touched is assumed. Both dispatch paths set the status explicitly, so the assumption does not affect any result.
