/** Concrete stubbing scenarios, each stated as the state the servlet response is left in. */
module Scenarios {
  import opened Wrappers
  import opened Multimaps
  import opened RequestPatterns
  import opened Responses
  import opened Canonicalization
  import opened StubRegistry
  import opened Dispatcher

  const UsersPattern := NewPatternWithHeaders("/users", Fields(map["id" := [Some("42")]]), Some(map[]))
  const UsersResponse := NewResponseWithEncoding(200, "{\"id\":42}", None, "application/json", "UTF-8")
  const UsersRegistry: Registry := map[UsersPattern := UsersResponse]

  function UsersGet(id: string): InboundRequest
  {
    InboundRequest("GET", "/users", "", [NamedValues("id", [id])], [NamedValues("Host", ["localhost:3000"])])
  }

  lemma UsersRegistryNames()
    ensures RegisteredHeaderNames(UsersRegistry) == {}
  {
  }

  /** The key of a users request: its one parameter, normalized, and no header. */
  lemma UsersKey(id: string)
    ensures LookupKey(UsersRegistry, UsersGet(id))
         == RequestPattern("/users", Fields(map["id" := [NormalizeValue(id)]]), Some(map[]))
  {
    UsersRegistryNames();
    var request := UsersGet(id);
    assert AllParameterPairs(request.parameters) == [Pair("id", NormalizeValue(id))] by {
      assert request.parameters[..0] == [];
      assert ParameterPairs("id", [id]) == [Pair("id", NormalizeValue(id))] by {
        assert [id][..0] == [];
      }
    }
    assert KeptHeaderPairs(request.headers, {}) == [] by {
      assert request.headers[..0] == [];
    }
    GroupSingleton(Pair("id", NormalizeValue(id)));
  }

  /** A GET whose parameter value matches the stub's is answered by the stub;
      another value of that parameter is not found. */
  lemma UsersScenario()
    ensures AddResponse(map[], Some(UsersPattern), Some(UsersResponse)) == Success(UsersRegistry)
    ensures Render(Dispatch(UsersRegistry, UsersGet("42")))
         == ServletResponse(200, [], Some("application/json"), Some("UTF-8"), "{\"id\":42}", true)
    ensures Render(Dispatch(UsersRegistry, UsersGet("43"))) == ServletResponse(NotFound, [], None, None, "", true)
  {
    assert !IsWhitespace("42"[0]) && !IsWhitespace("43"[0]);
    UsersKey("42");
    DispatchHit(UsersRegistry, UsersGet("42"));
    UsersKey("43");
    assert map["id" := [Some("43")]]["id"] != map["id" := [Some("42")]]["id"];
    DispatchMiss(UsersRegistry, UsersGet("43"));
  }

  const EchoPattern := NewPatternWithHeaders("/echo", RawBody("hello"), Some(map[]))
  const EchoResponse := NewResponseWithEncoding(201, "ok", None, "text/plain", "UTF-8")
  const EchoRegistry: Registry := map[EchoPattern := EchoResponse]

  function EchoPost(body: string): InboundRequest
  {
    InboundRequest("POST", "/echo", body, [], [NamedValues("Content-Length", ["5"])])
  }

  lemma EchoKey(body: string)
    ensures LookupKey(EchoRegistry, EchoPost(body)) == RequestPattern("/echo", RawBody(body), Some(map[]))
  {
    assert RegisteredHeaderNames(EchoRegistry) == {};
    var request := EchoPost(body);
    assert KeptHeaderPairs(request.headers, {}) == [] by {
      assert request.headers[..0] == [];
    }
  }

  /** A POST is matched on its raw body text. */
  lemma EchoScenario()
    ensures Render(Dispatch(EchoRegistry, EchoPost("hello")))
         == ServletResponse(201, [], Some("text/plain"), Some("UTF-8"), "ok", true)
    ensures Render(Dispatch(EchoRegistry, EchoPost("goodbye"))) == ServletResponse(NotFound, [], None, None, "", true)
  {
    EchoKey("hello");
    DispatchHit(EchoRegistry, EchoPost("hello"));
    EchoKey("goodbye");
    assert "goodbye" != "hello";
    DispatchMiss(EchoRegistry, EchoPost("goodbye"));
  }

  function TenantPattern(tenant: string): RequestPattern
  {
    NewPatternWithHeaders("/items", Fields(map[]), Some(map["X-Tenant" := [tenant]]))
  }

  const TenantA := NewResponseWithEncoding(200, "items of a", None, "text/plain", "UTF-8")
  const TenantB := NewResponseWithEncoding(200, "items of b", None, "text/plain", "UTF-8")
  const TenantRegistry: Registry := map[TenantPattern("a") := TenantA, TenantPattern("b") := TenantB]

  function TenantGet(tenant: string): InboundRequest
  {
    InboundRequest("GET", "/items", "", [],
                   [NamedValues("Host", ["localhost:3000"]), NamedValues("X-Tenant", [tenant])])
  }

  lemma TenantRegistryNames()
    ensures RegisteredHeaderNames(TenantRegistry) == {"X-Tenant"}
  {
    var names := RegisteredHeaderNames(TenantRegistry);
    assert TenantPattern("a") in TenantRegistry;
    assert "X-Tenant" in TenantPattern("a").requestHeaders.value;
    forall name | name in names ensures name == "X-Tenant" {
      var p :| p in TenantRegistry && p.requestHeaders.Some? && name in p.requestHeaders.value;
      assert p == TenantPattern("a") || p == TenantPattern("b");
    }
  }

  /** The key of an items request: only the registered header survives. */
  lemma TenantKey(tenant: string)
    ensures LookupKey(TenantRegistry, TenantGet(tenant))
         == RequestPattern("/items", Fields(map[]), Some(map["X-Tenant" := [tenant]]))
  {
    TenantRegistryNames();
    var request := TenantGet(tenant);
    assert KeptHeaderPairs(request.headers, {"X-Tenant"}) == [Pair("X-Tenant", tenant)] by {
      var first := request.headers[..1];
      assert first[..0] == [];
      assert KeptHeaderPairs(first, {"X-Tenant"}) == [];
      assert HeaderPairs("X-Tenant", [tenant]) == [Pair("X-Tenant", tenant)] by {
        assert [tenant][..0] == [];
      }
    }
    GroupSingleton(Pair("X-Tenant", tenant));
  }

  lemma TenantPatternsDiffer()
    ensures TenantPattern("a") != TenantPattern("b")
  {
    assert TenantPattern("a").requestHeaders.value["X-Tenant"] != TenantPattern("b").requestHeaders.value["X-Tenant"];
  }

  /** Stubs that differ only in a header route each request by that header. */
  lemma TenantRouted(tenant: string)
    requires tenant == "a" || tenant == "b"
    ensures Render(Dispatch(TenantRegistry, TenantGet(tenant)))
         == ServletResponse(200, [], Some("text/plain"), Some("UTF-8"), "items of " + tenant, true)
  {
    TenantKey(tenant);
    TenantPatternsDiffer();
    DispatchHit(TenantRegistry, TenantGet(tenant));
  }

  /** A tenant no stub mentions is not found. */
  lemma TenantScenarioUnknown()
    ensures Render(Dispatch(TenantRegistry, TenantGet("c"))) == ServletResponse(NotFound, [], None, None, "", true)
  {
    TenantKey("c");
    var key := LookupKey(TenantRegistry, TenantGet("c"));
    assert key != TenantPattern("a") && key != TenantPattern("b") by {
      assert key.requestHeaders.value["X-Tenant"] == ["c"];
    }
    DispatchMiss(TenantRegistry, TenantGet("c"));
  }
}
