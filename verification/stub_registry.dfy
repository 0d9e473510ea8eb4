/** The stub registry: `responseMap`, a hash map from pattern to response,
    filled by `addResponse` before any request is served. */
module StubRegistry {
  import opened Wrappers
  import opened RequestPatterns
  import opened Responses

  type Registry = map<RequestPattern, Response>

  /** The `IllegalArgumentException` of `addResponse`. */
  datatype RegistrationError = IllegalArgument

  /** `addResponse`: a null argument fails and leaves the registry as it was;
      otherwise the response is stored under the pattern, replacing the
      response of any equal pattern. */
  function AddResponse(registry: Registry, pattern: Option<RequestPattern>, response: Option<Response>)
    : (r: Result<Registry, RegistrationError>)
    ensures r.Failure? <==> pattern.None? || response.None?
    ensures r.Failure? ==> r.error == IllegalArgument
    ensures r.Success? ==> r.value.Keys == registry.Keys + {pattern.value}
    ensures r.Success? ==> forall q :: q in r.value && Equals(q, PatternObject(pattern.value)) ==> r.value[q] == response.value
    ensures r.Success? ==> forall q :: q in registry && !Equals(q, PatternObject(pattern.value)) ==> r.value[q] == registry[q]
  {
    if pattern.None? || response.None? then Failure(IllegalArgument)
    else Success(registry[pattern.value := response.value])
  }

  /** `containsKey` followed by `get`: a response is found iff some key equals
      the pattern, and it is that key's response. */
  function Lookup(registry: Registry, pattern: RequestPattern): (r: Option<Response>)
    ensures r.Some? <==> exists q :: q in registry && Equals(q, PatternObject(pattern))
    ensures r.Some? ==> pattern in registry && r.value == registry[pattern]
  {
    if pattern in registry then Some(registry[pattern]) else None
  }

  /** Registering twice under equal patterns leaves only the later response. */
  lemma LastRegistrationWins(registry: Registry, p: RequestPattern, q: RequestPattern, first: Response, second: Response)
    requires Equals(p, PatternObject(q))
    ensures AddResponse(registry, Some(p), Some(first)).Success?
    ensures var once := AddResponse(registry, Some(p), Some(first)).value;
      && AddResponse(once, Some(q), Some(second)).Success?
      && Lookup(AddResponse(once, Some(q), Some(second)).value, p) == Some(second)
  {
  }

  /** The header names mentioned by the registered patterns
      (`getOriginalRequestHeaderNames`). A pattern without headers mentions
      none. */
  function RegisteredHeaderNames(registry: Registry): set<string>
  {
    set p, name | p in registry && p.requestHeaders.Some? && name in p.requestHeaders.value :: name
  }

  /** `getOriginalRequestHeaderNames` as written: it iterates every pattern's
      header list, so a pattern whose headers are null makes it throw a
      `NullPointerException` (`None` here). */
  function RegisteredHeaderNamesAsWritten(registry: Registry): (r: Option<set<string>>)
    ensures r.None? <==> exists p :: p in registry && p.requestHeaders.None?
    ensures r.Some? ==> r.value == RegisteredHeaderNames(registry)
  {
    if exists p :: p in registry && p.requestHeaders.None? then None
    else Some(RegisteredHeaderNames(registry))
  }

  /** As written, one stub registered without headers makes the header-name
      collection fail, and with it every later request. */
  lemma HeaderlessStubBreaksNamesAsWritten(registry: Registry, p: RequestPattern, response: Response)
    requires p.requestHeaders.None?
    ensures RegisteredHeaderNamesAsWritten(registry[p := response]).None?
  {
    assert p in registry[p := response];
  }

  /** With absent headers read as "no names", a headerless stub adds no name. */
  lemma HeaderlessStubAddsNoNames(registry: Registry, p: RequestPattern, response: Response)
    requires p.requestHeaders.None?
    ensures RegisteredHeaderNames(registry[p := response]) == RegisteredHeaderNames(registry)
  {
  }
}
