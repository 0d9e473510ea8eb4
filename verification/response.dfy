/** `Response`: the immutable canned answer a stub returns. There are no
    setters, so a value built here never changes. */
module Responses {
  import opened Wrappers
  import opened Multimaps

  /** A response header entry, written as one header line. */
  type Header = Pair<string>

  /** The JVM environment: the platform default charset is given, not known. */
  datatype Platform = Platform(defaultCharset: string)

  /** Response headers are the entry list the dispatcher iterates, in order;
      `None` is a null header list. Content type and charset are kept as their
      string forms. */
  datatype Response = Response(
    status: int,
    body: string,
    responseHeaders: Option<seq<Header>>,
    contentType: string,
    encoding: string)

  /** The five-argument constructor; the getters are the datatype's fields. */
  function NewResponseWithEncoding(status: int, body: string, responseHeaders: Option<seq<Header>>,
                                   contentType: string, encoding: string): (r: Response)
    ensures r.status == status && r.body == body
    ensures r.responseHeaders == responseHeaders
    ensures r.contentType == contentType && r.encoding == encoding
  {
    Response(status, body, responseHeaders, contentType, encoding)
  }

  /** The four-argument constructor: the encoding is the platform default. */
  function NewResponse(status: int, body: string, responseHeaders: Option<seq<Header>>,
                       contentType: string, platform: Platform): (r: Response)
    ensures r.status == status && r.body == body
    ensures r.responseHeaders == responseHeaders
    ensures r.contentType == contentType
    ensures r.encoding == platform.defaultCharset
  {
    NewResponseWithEncoding(status, body, responseHeaders, contentType, platform.defaultCharset)
  }
}
