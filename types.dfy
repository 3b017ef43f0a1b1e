/** Option, for Go's nil-able values. */
module Wrappers {
  datatype Option<+T> = None | Some(value: T)
}

/** The records of rubber/consumer.go and its HTTP call, `consumer.Request`.

    The foreign calls inside Request (`http.NewRequest`, `client.Do`,
    `ioutil.ReadAll`) are not modelled; their combined effect is an `Attempt`
    supplied from outside. */
module RubberRequest {
  import opened Wrappers
  import GoPath

  newtype uint8 = x: int | 0 <= x < 0x100
  type Bytes = seq<uint8>

  /** Go's uint64: the type of esRequest.retries and consumer.maxRetries. */
  newtype uint64 = x: int | 0 <= x < 0x1_0000_0000_0000_0000

  /** A Go error value; only whether one is present matters to the dispatcher. */
  datatype Error = Error(message: string)

  /** The io.Reader body, as an opaque reference: a retry resends the same reference. */
  datatype Body = NoBody | Reader(id: nat)

  /** A caller's private `answ` channel, by identity. */
  datatype Chan = Chan(id: nat)

  /** esResponse: what is written to a caller's channel. `content` None is Go's nil slice. */
  datatype EsResponse = EsResponse(status: int, content: Option<Bytes>, err: Option<Error>)

  /** esRequest: one unit of work (its `method` is `verb` here), its caller's channel and its retry counter. */
  datatype EsRequest = EsRequest(
    index: string, verb: string, path: string, body: Body,
    answ: Chan, retries: uint64)

  /** What the foreign calls of one Request did: NewRequest failed, client.Do
      failed, or a response came back whose body was read (maybe with a read error). */
  datatype Attempt =
    | BuildFailed(err: Error)
    | SendFailed(err: Error)
    | Responded(statusCode: int, content: Bytes, readErr: Option<Error>)

  /** The model's assumption about servers: no response has a status below 100
      (net/http itself accepts any three characters, "000" included). */
  predicate IsStatusCode(code: int)
  {
    100 <= code <= 999
  }

  /** The scheme and host part of the URL formatted at line 95. */
  function Origin(server: string): string
  {
    "http://" + server
  }

  /** The URL of line 95: "http://" + server + path.Join("/", urlPath). */
  function Url(server: string, urlPath: string): (url: string)
    ensures |url| > |Origin(server)| && url[..|Origin(server)|] == Origin(server)
    ensures GoPath.IsCleanRooted(url[|Origin(server)|..])
    ensures GoPath.IsCleanRooted(urlPath) ==> url[|Origin(server)|..] == urlPath
  {
    var p := GoPath.Reroot(urlPath);
    RerootCleanRooted(urlPath);
    var url := Origin(server) + p;
    assert url[|Origin(server)|..] == p;
    url
  }

  lemma RerootCleanRooted(urlPath: string)
    ensures GoPath.IsCleanRooted(urlPath) ==> GoPath.Reroot(urlPath) == urlPath
  {
    if GoPath.IsCleanRooted(urlPath) {
      GoPath.RerootFixesCleanRooted(urlPath);
    }
  }

  /** consumer.Request: the (status, content, err) triple for one attempt.
      An error comes back exactly when building, sending or reading the body
      failed, and content is nil exactly when no response came back. A response
      that came back passes its status, its (possibly partial) content and the
      body-read error through unchanged. */
  function Request(server: string, verb: string, urlPath: string, body: Body, outcome: Attempt): (r: EsResponse)
    ensures r.err.Some? <==> (!outcome.Responded? || outcome.readErr.Some?)
    ensures r.content.None? <==> !outcome.Responded?
    ensures outcome.Responded? ==>
      r.status == outcome.statusCode && r.content == Some(outcome.content) && r.err == outcome.readErr
  {
    match outcome
    case BuildFailed(e) => EsResponse(0, None, Some(e))
    case SendFailed(e) => EsResponse(0, None, Some(e))
    case Responded(code, content, readErr) => EsResponse(code, Some(content), readErr)
  }

  /** Status 0 and nil content exactly when the request could not be built or
      sent, and then an error is always reported. */
  lemma RequestFailureShape(server: string, verb: string, urlPath: string, body: Body, outcome: Attempt)
    requires outcome.Responded? ==> IsStatusCode(outcome.statusCode)
    ensures var r := Request(server, verb, urlPath, body, outcome);
      (r.status == 0 <==> !outcome.Responded?) &&
      (r.content.None? <==> !outcome.Responded?) &&
      (!outcome.Responded? ==> r.err == Some(outcome.err))
  {
  }

  /** An HTTP response is never an error at this layer: whatever its status
      (404, 500, ...), a fully read response carries that status and no error. */
  lemma HttpStatusIsNotAnError(server: string, verb: string, urlPath: string, body: Body, code: int, content: Bytes)
    ensures Request(server, verb, urlPath, body, Responded(code, content, None))
      == EsResponse(code, Some(content), None)
  {
  }
}
