/**
  The `Hello` operation: a fixed-method, fixed-path wrapper around the call
  pipeline that adds the application-level status check.
*/
module Hello {
  import opened Wrappers
  import opened Decimal
  import opened Http
  import opened Client
  import CallProperties

  /** The application status that means success. */
  const SuccessStatusCode: int := 0

  const HelloMethod: string := "GET"
  const HelloPath: string := "/v1/api/hello"

  datatype HelloRequest = HelloRequest(name: string)

  /** The decoded body: an application status and a message. */
  datatype HelloResponse = HelloResponse(statusCode: int, message: string)

  /** A failure of the call, tagged with method and path, or a non-success application status. */
  datatype HelloError =
    | CallFailed(httpMethod: string, path: string, cause: CallError)
    | StatusNotSuccess(statusCode: int)

  datatype HelloRun = HelloRun(result: Result<HelloResponse, HelloError>, events: seq<Event<HelloResponse>>)

  /** The call `Hello` makes. */
  function HelloCall(cfg: Config, env: Env, codec: Codec<HelloRequest, HelloResponse>, nonce: Int64,
                     req: HelloRequest): Run<HelloResponse>
  {
    Call(cfg, env, codec, nonce, HelloMethod, HelloPath, req)
  }

  /**
    `Hello`: succeeds exactly when the call succeeds and the decoded status
    is the success code, and then returns the decoded response unchanged;
    a failed call is reported with method and path, and a decoded non-zero
    status is reported as such even though HTTP said 200.
  */
  function Hello(cfg: Config, env: Env, codec: Codec<HelloRequest, HelloResponse>, nonce: Int64,
                 req: HelloRequest): (r: HelloRun)
    ensures r.events == HelloCall(cfg, env, codec, nonce, req).events
    ensures r.result.Ok? <==> HelloCall(cfg, env, codec, nonce, req).result.Ok?
                              && HelloCall(cfg, env, codec, nonce, req).result.value.statusCode == SuccessStatusCode
    ensures r.result.Ok? ==> r.result.value.statusCode == SuccessStatusCode
                             && HelloCall(cfg, env, codec, nonce, req).result == Ok(r.result.value)
    ensures r.result.Err? && r.result.error.CallFailed? <==> HelloCall(cfg, env, codec, nonce, req).result.Err?
    ensures r.result.Err? && r.result.error.CallFailed? ==>
              r.result.error == CallFailed(HelloMethod, HelloPath, HelloCall(cfg, env, codec, nonce, req).result.error)
    ensures r.result.Err? && r.result.error.StatusNotSuccess? ==>
              && r.result.error.statusCode != SuccessStatusCode
              && HelloCall(cfg, env, codec, nonce, req).result.Ok?
              && HelloCall(cfg, env, codec, nonce, req).result.value.statusCode == r.result.error.statusCode
  {
    var call := HelloCall(cfg, env, codec, nonce, req);
    match call.result
    case Err(e) => HelloRun(Err(CallFailed(HelloMethod, HelloPath, e)), call.events)
    case Ok(res) =>
      if res.statusCode != SuccessStatusCode then HelloRun(Err(StatusNotSuccess(res.statusCode)), call.events)
      else HelloRun(Ok(res), call.events)
  }

  /** Every request `Hello` dispatches is a GET of the base endpoint followed by the hello path. */
  lemma HelloTarget(cfg: Config, env: Env, codec: Codec<HelloRequest, HelloResponse>, nonce: Int64, req: HelloRequest)
    ensures forall q :: q in Dispatched(Hello(cfg, env, codec, nonce, req).events) ==>
              q.httpMethod == "GET" && q.url == cfg.baseEndpoint + "/v1/api/hello"
  {
    CallProperties.DispatchedOnce(cfg, env, codec, nonce, HelloMethod, HelloPath, req);
  }

  /**
    Against a server that answers every request with status 200 and a body
    decoding to status 0 and "hello!!", `Hello` returns that response.
  */
  lemma MockServerHello(cfg: Config, env: Env, codec: Codec<HelloRequest, HelloResponse>, nonce: Int64,
                        req: HelloRequest, body: string)
    requires codec.marshal(req).Some?
    requires env.newRequest(HelloMethod, Endpoint(cfg, HelloPath))
    requires forall q :: env.send(q) == Some(Response(StatusOK, body))
    requires codec.decode(body) == Some(HelloResponse(SuccessStatusCode, "hello!!"))
    ensures Hello(cfg, env, codec, nonce, req).result == Ok(HelloResponse(0, "hello!!"))
  {
    var payload := codec.marshal(req).value;
    var q := SignedRequest(cfg, env.mac, nonce, HelloMethod, Endpoint(cfg, HelloPath), payload);
    assert HelloCall(cfg, env, codec, nonce, req).result == Exchange(cfg, env, codec.decode, q).result;
  }

  /**
    HTTP 200 does not mean success: a body whose decoded status is non-zero
    yields the application status error carrying that status.
  */
  lemma ApplicationStatusOverridesHttpOK(cfg: Config, env: Env, codec: Codec<HelloRequest, HelloResponse>,
                                         nonce: Int64, req: HelloRequest, body: string, status: int, message: string)
    requires codec.marshal(req).Some?
    requires env.newRequest(HelloMethod, Endpoint(cfg, HelloPath))
    requires forall q :: env.send(q) == Some(Response(StatusOK, body))
    requires codec.decode(body) == Some(HelloResponse(status, message))
    requires status != SuccessStatusCode
    ensures Hello(cfg, env, codec, nonce, req).result == Err(StatusNotSuccess(status))
  {
    var payload := codec.marshal(req).value;
    var q := SignedRequest(cfg, env.mac, nonce, HelloMethod, Endpoint(cfg, HelloPath), payload);
    assert HelloCall(cfg, env, codec, nonce, req).result == Exchange(cfg, env, codec.decode, q).result;
  }

  /**
    A status other than 200 yields the call failure carrying that status,
    tagged with method and path, and the body is never decoded.
  */
  lemma HttpErrorSkipsDecode(cfg: Config, env: Env, codec: Codec<HelloRequest, HelloResponse>,
                             nonce: Int64, req: HelloRequest, body: string, code: int)
    requires codec.marshal(req).Some?
    requires env.newRequest(HelloMethod, Endpoint(cfg, HelloPath))
    requires forall q :: env.send(q) == Some(Response(code, body))
    requires code != StatusOK
    ensures Hello(cfg, env, codec, nonce, req).result == Err(CallFailed("GET", "/v1/api/hello", BadStatus(code)))
    ensures DecodedBodies(Hello(cfg, env, codec, nonce, req).events) == []
  {
    var payload := codec.marshal(req).value;
    var q := SignedRequest(cfg, env.mac, nonce, HelloMethod, Endpoint(cfg, HelloPath), payload);
    assert HelloCall(cfg, env, codec, nonce, req).result == Exchange(cfg, env, codec.decode, q).result;
    CallProperties.FailuresBeforeDecode(cfg, env, codec, nonce, HelloMethod, HelloPath, req);
  }
}
