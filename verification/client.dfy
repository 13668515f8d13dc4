/**
  The call pipeline of the API client: marshal the request, build the HTTP
  request for base endpoint plus path, sign it, send it, check the HTTP
  status and decode the body, stopping at the first step that fails.
*/
module Client {
  import opened Wrappers
  import opened Decimal
  import opened Http
  import Signer

  /** The client's configuration, fixed when the client is created. */
  datatype Config = Config(baseEndpoint: string, apiKey: string, apiSecret: string, debug: bool)

  /**
    The collaborators the pipeline calls without defining them: the MAC,
    whether `http.NewRequest` accepts a method and URL, and the transport,
    which either completes the round trip or fails.
  */
  datatype Env = Env(mac: Signer.Mac, newRequest: (string, string) -> bool, send: Request -> Option<Response>)

  /** JSON encoding of the request type and decoding of the response type, each of which may fail. */
  datatype Codec<-Req, Resp> = Codec(marshal: Req -> Option<string>, decode: string -> Option<Resp>)

  /** What a call does that can be observed, in order. */
  datatype Event<Resp> =
    | PayloadLogged(payload: string)
    | Sent(request: Request)
    | Decoded(body: string)
    | ResponseLogged(response: Resp)

  /** The one way a call failed. */
  datatype CallError =
    | MarshalFailed
    | BuildFailed
    | TransportFailed
    | BadStatus(code: int)
    | DecodeFailed

  datatype Run<Resp> = Run(result: Result<Resp, CallError>, events: seq<Event<Resp>>)

  /** The request target: base endpoint and path, concatenated as they are. */
  function Endpoint(cfg: Config, path: string): (url: string)
    ensures |url| == |cfg.baseEndpoint| + |path|
    ensures url[..|cfg.baseEndpoint|] == cfg.baseEndpoint && url[|cfg.baseEndpoint|..] == path
  {
    cfg.baseEndpoint + path
  }

  /**
    The four headers of a signed request, in the order the client adds them.
    The nonce header holds the nonce text, and the signature header is the
    MAC over that same text followed by URL and payload; `SignedHeadersRead`
    reads all four back by name.
  */
  function SignedHeaders(cfg: Config, mac: Signer.Mac, nonce: Int64, url: string, payload: string): (h: seq<Header>)
    ensures |h| == 4 && h[2].name == AccessNonceHeader && h[3].name == AccessSignatureHeader
    ensures h[2].value == Format(nonce)
    ensures h[3].value == mac(cfg.apiSecret, h[2].value + url + payload)
  {
    [ Header(ContentTypeHeader, JsonContentType),
      Header(AccessKeyHeader, cfg.apiKey),
      Header(AccessNonceHeader, Format(nonce)),
      Header(AccessSignatureHeader, Signer.Sign(mac, cfg.apiSecret, nonce, url, payload)) ]
  }

  predicate IsLog<Resp>(e: Event<Resp>) {
    e.PayloadLogged? || e.ResponseLogged?
  }

  /** The requests handed to the transport. */
  function Dispatched<Resp>(events: seq<Event<Resp>>): seq<Request>
  {
    if events == [] then []
    else (if events[0].Sent? then [events[0].request] else []) + Dispatched(events[1..])
  }

  /** The response bodies handed to the decoder. */
  function DecodedBodies<Resp>(events: seq<Event<Resp>>): seq<string>
  {
    if events == [] then []
    else (if events[0].Decoded? then [events[0].body] else []) + DecodedBodies(events[1..])
  }

  /** The events other than debug logging. */
  function Effects<Resp>(events: seq<Event<Resp>>): seq<Event<Resp>>
  {
    if events == [] then []
    else (if IsLog(events[0]) then [] else [events[0]]) + Effects(events[1..])
  }

  lemma {:induction false} DispatchedAppend<Resp>(a: seq<Event<Resp>>, b: seq<Event<Resp>>)
    ensures Dispatched(a + b) == Dispatched(a) + Dispatched(b)
    decreases |a|
  {
    if a != [] {
      assert (a + b)[1..] == a[1..] + b;
      DispatchedAppend(a[1..], b);
    } else {
      assert a + b == b;
    }
  }

  lemma {:induction false} DecodedBodiesAppend<Resp>(a: seq<Event<Resp>>, b: seq<Event<Resp>>)
    ensures DecodedBodies(a + b) == DecodedBodies(a) + DecodedBodies(b)
    decreases |a|
  {
    if a != [] {
      assert (a + b)[1..] == a[1..] + b;
      DecodedBodiesAppend(a[1..], b);
    } else {
      assert a + b == b;
    }
  }

  lemma {:induction false} EffectsAppend<Resp>(a: seq<Event<Resp>>, b: seq<Event<Resp>>)
    ensures Effects(a + b) == Effects(a) + Effects(b)
    decreases |a|
  {
    if a != [] {
      assert (a + b)[1..] == a[1..] + b;
      EffectsAppend(a[1..], b);
    } else {
      assert a + b == b;
    }
  }

  /**
    The method `http.NewRequest` records: an empty method means GET; any
    other method is kept as given.
  */
  function RequestMethod(httpMethod: string): (m: string)
    ensures m != ""
    ensures httpMethod != "" ==> m == httpMethod
    ensures httpMethod == "" ==> m == "GET"
  {
    if httpMethod == "" then "GET" else httpMethod
  }

  /**
    The signed request `call` hands to the transport: its body is the
    payload, and its signature header (the fourth) covers its own nonce
    header (the third), its own URL and its own body.
  */
  function SignedRequest(cfg: Config, mac: Signer.Mac, nonce: Int64, httpMethod: string,
                         url: string, payload: string): (req: Request)
    ensures req.httpMethod == RequestMethod(httpMethod) && req.url == url && req.body == payload
    ensures |req.headers| == 4 && req.headers[2].value == Format(nonce)
    ensures req.headers[3].value == mac(cfg.apiSecret, req.headers[2].value + req.url + req.body)
  {
    Request(RequestMethod(httpMethod), url, SignedHeaders(cfg, mac, nonce, url, payload), payload)
  }

  /** Sending a built request, checking the HTTP status and decoding the body. */
  function Exchange<Resp>(cfg: Config, env: Env, decode: string -> Option<Resp>, req: Request): (run: Run<Resp>)
    ensures |run.events| >= 1 && run.events[0] == Sent(req)
    ensures run.result == Err(TransportFailed) <==> env.send(req).None?
  {
    match env.send(req)
    case None => Run(Err(TransportFailed), [Sent(req)])
    case Some(res) =>
      if res.statusCode != StatusOK then
        Run(Err(BadStatus(res.statusCode)), [Sent(req)])
      else
        match decode(res.body)
        case None => Run(Err(DecodeFailed), [Sent(req), Decoded(res.body)])
        case Some(response) =>
          Run(Ok(response), [Sent(req), Decoded(res.body)] + if cfg.debug then [ResponseLogged(response)] else [])
  }

  /**
    `call`: one request/response cycle. The nonce is the value the clock
    gave; the logging steps happen only when the debug flag is set.
  */
  function Call<Req, Resp>(cfg: Config, env: Env, codec: Codec<Req, Resp>, nonce: Int64,
                           httpMethod: string, path: string, request: Req): (run: Run<Resp>)
    ensures run.result == Err(MarshalFailed) <==> codec.marshal(request).None?
    ensures codec.marshal(request).None? ==> run.events == []
    ensures run.result == Err(BuildFailed)
            <==> codec.marshal(request).Some? && !env.newRequest(httpMethod, Endpoint(cfg, path))
    ensures run.result == Err(BuildFailed) ==> Dispatched(run.events) == []
  {
    match codec.marshal(request)
    case None => Run(Err(MarshalFailed), [])
    case Some(payload) =>
      var logged := if cfg.debug then [PayloadLogged(payload)] else [];
      var endpoint := Endpoint(cfg, path);
      if !env.newRequest(httpMethod, endpoint) then
        Run(Err(BuildFailed), logged)
      else
        var exchange := Exchange(cfg, env, codec.decode, SignedRequest(cfg, env.mac, nonce, httpMethod, endpoint, payload));
        Run(exchange.result, logged + exchange.events)
  }
}
