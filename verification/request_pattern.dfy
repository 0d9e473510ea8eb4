/** `RequestPattern`: the key a stub is registered under and an inbound request
    is looked up by.

    The handler and the pattern class disagree on field types (the handler
    builds a pattern from a body `String` or a `List<NameValuePair>`, the class
    stores `ListMultimap`s). The model reconciles them with a sum type for the
    parameter key: `RawBody` for the body text of POST and PUT, `Fields` for a
    multimap of decoded parameters whose values may be absent (a blank value).
    Request headers are an optional multimap, `None` standing for the null the
    two-argument constructor stores. */
module RequestPatterns {
  import opened Wrappers
  import opened Multimaps

  datatype ParamKey = RawBody(body: string) | Fields(fields: Multimap<Option<string>>)

  datatype RequestPattern = RequestPattern(
    path: string,
    parameters: ParamKey,
    requestHeaders: Option<Multimap<string>>)

  /** The parameter multimap, if any, is one Guava can hold. */
  ghost predicate WellFormedKey(parameters: ParamKey)
  {
    parameters.Fields? ==> WellFormed(parameters.fields)
  }

  /** The header multimap, if present, is one Guava can hold. */
  ghost predicate WellFormedHeaders(requestHeaders: Option<Multimap<string>>)
  {
    requestHeaders.Some? ==> WellFormed(requestHeaders.value)
  }

  /** The three-argument constructor; the getters are the datatype's fields.
      Its multimap arguments are real `ListMultimap`s, so none holds a key
      without values. */
  function NewPatternWithHeaders(path: string, parameters: ParamKey, requestHeaders: Option<Multimap<string>>): (p: RequestPattern)
    requires WellFormedKey(parameters) && WellFormedHeaders(requestHeaders)
    ensures p.path == path
    ensures p.parameters == parameters
    ensures p.requestHeaders == requestHeaders
  {
    RequestPattern(path, parameters, requestHeaders)
  }

  /** The two-argument constructor: no header multimap at all. */
  function NewPattern(path: string, parameters: ParamKey): (p: RequestPattern)
    requires WellFormedKey(parameters)
    ensures p.path == path && p.parameters == parameters
    ensures p.requestHeaders.None?
  {
    NewPatternWithHeaders(path, parameters, None)
  }

  /** The argument of `equals(Object)`: null, a pattern, or any other object. */
  datatype JavaObject = Null | PatternObject(pattern: RequestPattern) | OtherObject

  /** One `EqualsBuilder.append(lhs, rhs)` step: once unequal, stays unequal;
      two nulls are equal, null and non-null are not, otherwise `equals`. */
  function AppendEquals<T(==)>(equalSoFar: bool, lhs: Option<T>, rhs: Option<T>): bool
  {
    if !equalSoFar then false
    else match (lhs, rhs)
      case (None, None) => true
      case (Some(l), Some(r)) => l == r
      case _ => false
  }

  /** `RequestPattern.equals`. The identity short-cut is subsumed: a pattern
      compared with itself has equal fields. */
  predicate Equals(self: RequestPattern, obj: JavaObject)
  {
    match obj
    case PatternObject(that) =>
      var pathEqual := AppendEquals(true, Some(self.path), Some(that.path));
      var parametersEqual := AppendEquals(pathEqual, Some(self.parameters), Some(that.parameters));
      AppendEquals(parametersEqual, self.requestHeaders, that.requestHeaders)
    case _ => false
  }

  /** Hash of the three fields; the concrete combination `HashCodeBuilder`
      uses is a parameter of the model. */
  type FieldHash = (string, ParamKey, Option<Multimap<string>>) -> int

  function HashCode(p: RequestPattern, fieldHash: FieldHash): int
  {
    fieldHash(p.path, p.parameters, p.requestHeaders)
  }

  /** Two patterns are equal iff their path, parameters and headers are equal. */
  lemma EqualsIffFieldsEqual(a: RequestPattern, b: RequestPattern)
    ensures Equals(a, PatternObject(b)) <==>
      a.path == b.path && a.parameters == b.parameters && a.requestHeaders == b.requestHeaders
  {
  }

  /** `equals` coincides with value equality, so a Dafny `map` keyed by
      patterns behaves like the source's `HashMap`. */
  lemma EqualsIsValueEquality(a: RequestPattern, b: RequestPattern)
    ensures Equals(a, PatternObject(b)) <==> a == b
  {
  }

  lemma EqualsReflexive(a: RequestPattern)
    ensures Equals(a, PatternObject(a))
  {
  }

  lemma EqualsSymmetric(a: RequestPattern, b: RequestPattern)
    ensures Equals(a, PatternObject(b)) <==> Equals(b, PatternObject(a))
  {
  }

  lemma EqualsTransitive(a: RequestPattern, b: RequestPattern, c: RequestPattern)
    requires Equals(a, PatternObject(b)) && Equals(b, PatternObject(c))
    ensures Equals(a, PatternObject(c))
  {
  }

  /** Null and objects of other classes are never equal to a pattern. */
  lemma EqualsRejectsNonPatterns(a: RequestPattern)
    ensures !Equals(a, Null) && !Equals(a, OtherObject)
  {
  }

  /** Equal patterns have equal hash codes, whatever the field hashes are. */
  lemma EqualPatternsEqualHash(a: RequestPattern, b: RequestPattern, fieldHash: FieldHash)
    requires Equals(a, PatternObject(b))
    ensures HashCode(a, fieldHash) == HashCode(b, fieldHash)
  {
  }

  /** A pattern without headers never equals one with a header multimap, even
      an empty one. */
  lemma AbsentHeadersNeverEqualPresent(a: RequestPattern, b: RequestPattern)
    requires a.requestHeaders.None? && b.requestHeaders.Some?
    ensures !Equals(a, PatternObject(b)) && !Equals(b, PatternObject(a))
  {
  }
}
