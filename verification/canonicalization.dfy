/** Turning an inbound request into the `RequestPattern` it is looked up by
    (`onHandle`'s pattern construction, both `getParameters` and both
    `getRequestHeader`).

    The transport's enumerations are given as lists of (name, values): the
    parameter names with `getParameterValues`, the header names with
    `getHeaders`. The body has already been read into a string. */
module Canonicalization {
  import opened Wrappers
  import opened Multimaps
  import opened RequestPatterns

  datatype NamedValues = NamedValues(name: string, values: seq<string>)

  datatype InboundRequest = InboundRequest(
    verb: string,
    target: string,
    body: string,
    parameters: seq<NamedValues>,
    headers: seq<NamedValues>)

  /** Java 8's `Character.isWhitespace` (Unicode 6.2): the ASCII controls TAB
      to CR and FS to US, and the Unicode space, line and paragraph separators
      except the non-breaking ones. U+180E is a space separator in that
      version of Unicode. */
  predicate IsWhitespace(c: char)
  {
    || c == ' '
    || ('\t' <= c <= '\r')
    || ('\U{1C}' <= c <= '\U{1F}')
    || c == '\U{1680}' || c == '\U{180E}'
    || ('\U{2000}' <= c <= '\U{200A}' && c != '\U{2007}')
    || c == '\U{2028}' || c == '\U{2029}'
    || c == '\U{205F}' || c == '\U{3000}'
  }

  /** commons-lang `StringUtils.isBlank` on a non-null string. */
  predicate IsBlank(s: string)
  {
    forall i :: 0 <= i < |s| ==> IsWhitespace(s[i])
  }

  /** A blank value becomes the absent marker; any other is kept verbatim. */
  function NormalizeValue(v: string): Option<string>
  {
    if !IsBlank(v) then Some(v) else None
  }

  /** `NormalizeValue` applied to each value, in order. */
  function NormalizeAll(values: seq<string>): seq<Option<string>>
    decreases |values|
  {
    if values == [] then []
    else NormalizeAll(values[..|values| - 1]) + [NormalizeValue(values[|values| - 1])]
  }

  lemma {:induction false} NormalizeAllAppend(a: seq<string>, b: seq<string>)
    ensures NormalizeAll(a + b) == NormalizeAll(a) + NormalizeAll(b)
    decreases |b|
  {
    if b == [] {
      assert a + b == a;
    } else {
      assert (a + b)[..|a + b| - 1] == a + b[..|b| - 1];
      NormalizeAllAppend(a, b[..|b| - 1]);
    }
  }

  /** `getParameters(request, name)`: one entry per value of `name`, in order;
      blank values are absent, others verbatim. */
  function ParameterPairs(name: string, values: seq<string>): (r: seq<Pair<Option<string>>>)
    ensures |r| == |values|
    ensures forall i :: 0 <= i < |r| ==> r[i].name == name
    ensures forall i :: 0 <= i < |r| ==> (r[i].value.None? <==> IsBlank(values[i]))
    ensures forall i :: 0 <= i < |r| && r[i].value.Some? ==> r[i].value.value == values[i]
    decreases |values|
  {
    if values == [] then []
    else ParameterPairs(name, values[..|values| - 1]) + [Pair(name, NormalizeValue(values[|values| - 1]))]
  }

  /** The entries of one name hold exactly its normalized values. */
  lemma {:induction false} ParameterPairsValues(name: string, values: seq<string>, key: string)
    ensures ValuesOf(ParameterPairs(name, values), key) == if key == name then NormalizeAll(values) else []
    decreases |values|
  {
    if values != [] {
      var r := ParameterPairs(name, values);
      assert r[..|r| - 1] == ParameterPairs(name, values[..|values| - 1]);
      ParameterPairsValues(name, values[..|values| - 1], key);
    }
  }

  /** `getParameters(request)`: the entries of every parameter name, in the
      order the transport enumerates the names. */
  function AllParameterPairs(parameters: seq<NamedValues>): seq<Pair<Option<string>>>
    decreases |parameters|
  {
    if parameters == [] then []
    else
      var last := parameters[|parameters| - 1];
      AllParameterPairs(parameters[..|parameters| - 1]) + ParameterPairs(last.name, last.values)
  }

  /** Reference definition: all values the transport reports for `name`, in order. */
  function ValuesNamed(entries: seq<NamedValues>, name: string): seq<string>
    decreases |entries|
  {
    if entries == [] then []
    else
      var last := entries[|entries| - 1];
      ValuesNamed(entries[..|entries| - 1], name) + (if last.name == name then last.values else [])
  }

  /** Under every name, the flat parameter list holds the normalized values of
      that name, one per value and in arrival order. */
  lemma {:induction false} AllParameterPairsValues(parameters: seq<NamedValues>, name: string)
    ensures ValuesOf(AllParameterPairs(parameters), name) == NormalizeAll(ValuesNamed(parameters, name))
    decreases |parameters|
  {
    if parameters != [] {
      var init := parameters[..|parameters| - 1];
      var last := parameters[|parameters| - 1];
      AllParameterPairsValues(init, name);
      ValuesOfAppend(AllParameterPairs(init), ParameterPairs(last.name, last.values), name);
      ParameterPairsValues(last.name, last.values, name);
      NormalizeAllAppend(ValuesNamed(init, name), if last.name == name then last.values else []);
    }
  }

  /** `getRequestHeader(request, name)`: one header per value, verbatim, in order. */
  function HeaderPairs(name: string, values: seq<string>): (r: seq<Pair<string>>)
    ensures |r| == |values|
    ensures forall i :: 0 <= i < |r| ==> r[i].name == name && r[i].value == values[i]
    decreases |values|
  {
    if values == [] then []
    else HeaderPairs(name, values[..|values| - 1]) + [Pair(name, values[|values| - 1])]
  }

  lemma {:induction false} HeaderPairsValues(name: string, values: seq<string>, key: string)
    ensures ValuesOf(HeaderPairs(name, values), key) == if key == name then values else []
    decreases |values|
  {
    if values != [] {
      var r := HeaderPairs(name, values);
      assert r[..|r| - 1] == HeaderPairs(name, values[..|values| - 1]);
      HeaderPairsValues(name, values[..|values| - 1], key);
      assert values[..|values| - 1] + [values[|values| - 1]] == values;
    }
  }

  /** `getRequestHeader(request)`: the headers whose name some registered
      pattern mentions, skipping every other name. */
  function KeptHeaderPairs(headers: seq<NamedValues>, registeredNames: set<string>): seq<Pair<string>>
    decreases |headers|
  {
    if headers == [] then []
    else
      var last := headers[|headers| - 1];
      KeptHeaderPairs(headers[..|headers| - 1], registeredNames)
        + (if last.name in registeredNames then HeaderPairs(last.name, last.values) else [])
  }

  /** A header name keeps all its values, in order, iff it is registered;
      otherwise it keeps none. */
  lemma {:induction false} KeptHeaderPairsValues(headers: seq<NamedValues>, registeredNames: set<string>, name: string)
    ensures ValuesOf(KeptHeaderPairs(headers, registeredNames), name)
         == if name in registeredNames then ValuesNamed(headers, name) else []
    decreases |headers|
  {
    if headers != [] {
      var init := headers[..|headers| - 1];
      var last := headers[|headers| - 1];
      KeptHeaderPairsValues(init, registeredNames, name);
      var tail := if last.name in registeredNames then HeaderPairs(last.name, last.values) else [];
      ValuesOfAppend(KeptHeaderPairs(init, registeredNames), tail, name);
      if last.name in registeredNames {
        HeaderPairsValues(last.name, last.values, name);
      }
    }
  }

  /** POST and PUT carry their match key in the body. */
  predicate IsBodyMethod(verb: string)
  {
    verb == "POST" || verb == "PUT"
  }

  /** The pattern `onHandle` looks up: the target as path, the raw body for
      POST and PUT or the decoded parameters otherwise, and the registered
      headers. */
  function Canonicalize(request: InboundRequest, registeredNames: set<string>): (p: RequestPattern)
    ensures p.path == request.target
    ensures p.parameters.RawBody? <==> IsBodyMethod(request.verb)
    ensures p.parameters.RawBody? ==> p.parameters.body == request.body
    ensures p.requestHeaders.Some?
  {
    var parameters :=
      if IsBodyMethod(request.verb) then RawBody(request.body)
      else Fields(Group(AllParameterPairs(request.parameters)));
    NewPatternWithHeaders(request.target, parameters,
                          Some(Group(KeptHeaderPairs(request.headers, registeredNames))))
  }

  /** Other methods are keyed by their decoded parameters: every name maps to
      its normalized values in arrival order, and a name is present iff the
      transport reported a value for it. */
  lemma CanonicalParameters(request: InboundRequest, registeredNames: set<string>, name: string)
    requires !IsBodyMethod(request.verb)
    ensures var fields := Canonicalize(request, registeredNames).parameters.fields;
      && Get(fields, name) == NormalizeAll(ValuesNamed(request.parameters, name))
      && (name in fields <==> ValuesNamed(request.parameters, name) != [])
  {
    var pairs := AllParameterPairs(request.parameters);
    GroupValues(pairs);
    GroupKeys(pairs, name);
    AllParameterPairsValues(request.parameters, name);
    assert |NormalizeAll(ValuesNamed(request.parameters, name))| == |ValuesNamed(request.parameters, name)| by {
      NormalizeAllLength(ValuesNamed(request.parameters, name));
    }
  }

  lemma {:induction false} NormalizeAllLength(values: seq<string>)
    ensures |NormalizeAll(values)| == |values|
    decreases |values|
  {
    if values != [] {
      NormalizeAllLength(values[..|values| - 1]);
    }
  }

  /** An inbound header survives iff its name is registered (and it has a
      value), and then all its values are kept verbatim and in order. */
  lemma CanonicalHeaders(request: InboundRequest, registeredNames: set<string>, name: string)
    ensures var headers := Canonicalize(request, registeredNames).requestHeaders.value;
      && Get(headers, name) == (if name in registeredNames then ValuesNamed(request.headers, name) else [])
      && (name in headers <==> name in registeredNames && ValuesNamed(request.headers, name) != [])
  {
    var pairs := KeptHeaderPairs(request.headers, registeredNames);
    GroupValues(pairs);
    GroupKeys(pairs, name);
    KeptHeaderPairsValues(request.headers, registeredNames, name);
  }

  /** Parameter names may arrive in any order: requests that agree name by
      name on their values canonicalize to the same pattern. */
  lemma CanonicalIgnoresParameterNameOrder(a: InboundRequest, b: InboundRequest, registeredNames: set<string>)
    requires a.verb == b.verb && a.target == b.target && a.body == b.body && a.headers == b.headers
    requires forall name :: ValuesNamed(a.parameters, name) == ValuesNamed(b.parameters, name)
    ensures Canonicalize(a, registeredNames) == Canonicalize(b, registeredNames)
  {
    if !IsBodyMethod(a.verb) {
      forall name ensures ValuesOf(AllParameterPairs(a.parameters), name) == ValuesOf(AllParameterPairs(b.parameters), name) {
        AllParameterPairsValues(a.parameters, name);
        AllParameterPairsValues(b.parameters, name);
      }
      GroupSameValues(AllParameterPairs(a.parameters), AllParameterPairs(b.parameters));
    }
  }

  /** Header names may also arrive in any order: only the order of the values
      under one name is part of the pattern, as with `ListMultimap` equality. */
  lemma CanonicalIgnoresHeaderNameOrder(a: InboundRequest, b: InboundRequest, registeredNames: set<string>)
    requires a.verb == b.verb && a.target == b.target && a.body == b.body && a.parameters == b.parameters
    requires forall name :: ValuesNamed(a.headers, name) == ValuesNamed(b.headers, name)
    ensures Canonicalize(a, registeredNames) == Canonicalize(b, registeredNames)
  {
    forall name ensures ValuesOf(KeptHeaderPairs(a.headers, registeredNames), name)
                     == ValuesOf(KeptHeaderPairs(b.headers, registeredNames), name) {
      KeptHeaderPairsValues(a.headers, registeredNames, name);
      KeptHeaderPairsValues(b.headers, registeredNames, name);
    }
    GroupSameValues(KeptHeaderPairs(a.headers, registeredNames), KeptHeaderPairs(b.headers, registeredNames));
  }
}
