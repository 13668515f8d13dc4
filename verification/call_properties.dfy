/** What every run of the call pipeline guarantees, stated over its result and event trace. */
module CallProperties {
  import opened Wrappers
  import opened Decimal
  import opened Http
  import Signer
  import Receiver
  import opened Client

  /**
    The trace of an exchange: the request is sent once, the decoder sees
    the body exactly when the transport returned status 200, and apart
    from logging the trace does not depend on the debug flag.
  */
  lemma ExchangeTrace<Resp>(cfg: Config, env: Env, decode: string -> Option<Resp>, req: Request)
    ensures var ex := Exchange(cfg, env, decode, req);
            && Dispatched(ex.events) == [req]
            && DecodedBodies(ex.events)
               == (if env.send(req).Some? && env.send(req).value.statusCode == StatusOK
                   then [env.send(req).value.body] else [])
            && ex.result == Exchange(cfg.(debug := false), env, decode, req).result
            && Effects(ex.events) == Exchange(cfg.(debug := false), env, decode, req).events
  {
    var ex := Exchange(cfg, env, decode, req);
    var sent: seq<Event<Resp>> := [Sent(req)];
    assert sent[1..] == [];
    assert Dispatched(sent) == [req] && DecodedBodies(sent) == [] && Effects(sent) == sent;
    if env.send(req).Some? && env.send(req).value.statusCode == StatusOK {
      var body := env.send(req).value.body;
      var decoded: seq<Event<Resp>> := [Decoded(body)];
      assert decoded[1..] == [];
      assert Dispatched(decoded) == [] && DecodedBodies(decoded) == [body] && Effects(decoded) == decoded;
      var head := sent + decoded;
      DispatchedAppend(sent, decoded);
      DecodedBodiesAppend(sent, decoded);
      EffectsAppend(sent, decoded);
      if decode(body).Some? && cfg.debug {
        var tail: seq<Event<Resp>> := [ResponseLogged(decode(body).value)];
        assert tail[1..] == [];
        assert Dispatched(tail) == [] && DecodedBodies(tail) == [] && Effects(tail) == [];
        assert ex.events == head + tail;
        DispatchedAppend(head, tail);
        DecodedBodiesAppend(head, tail);
        EffectsAppend(head, tail);
      } else {
        assert ex.events == head + [];
      }
    }
  }

  /**
    A request reaches the transport exactly when marshalling and request
    construction both succeed, and then exactly once: with the caller's
    method (GET when the caller passed none), the target base endpoint plus
    path, and the marshalled payload as its body.
  */
  lemma DispatchedOnce<Req, Resp>(cfg: Config, env: Env, codec: Codec<Req, Resp>, nonce: Int64,
                                  httpMethod: string, path: string, request: Req)
    ensures var run := Call(cfg, env, codec, nonce, httpMethod, path, request);
            |Dispatched(run.events)|
            == if codec.marshal(request).Some? && env.newRequest(httpMethod, Endpoint(cfg, path)) then 1 else 0
    ensures var run := Call(cfg, env, codec, nonce, httpMethod, path, request);
            forall req :: req in Dispatched(run.events) ==>
              && req.httpMethod == RequestMethod(httpMethod)
              && req.url == Endpoint(cfg, path)
              && codec.marshal(request) == Some(req.body)
              && req == SignedRequest(cfg, env.mac, nonce, httpMethod, req.url, req.body)
  {
    var run := Call(cfg, env, codec, nonce, httpMethod, path, request);
    if codec.marshal(request).Some? {
      var payload := codec.marshal(request).value;
      var logged: seq<Event<Resp>> := if cfg.debug then [PayloadLogged(payload)] else [];
      assert Dispatched(logged) == [];
      var endpoint := Endpoint(cfg, path);
      if env.newRequest(httpMethod, endpoint) {
        var req := SignedRequest(cfg, env.mac, nonce, httpMethod, endpoint, payload);
        var ex := Exchange(cfg, env, codec.decode, req);
        assert run.events == logged + ex.events;
        ExchangeTrace(cfg, env, codec.decode, req);
        DispatchedAppend(logged, ex.events);
      }
    }
  }

  /** The four signed headers, read back by name, give what the client put in them. */
  lemma SignedHeadersRead(cfg: Config, mac: Signer.Mac, nonce: Int64, url: string, payload: string)
    ensures var h := SignedHeaders(cfg, mac, nonce, url, payload);
            && Get(h, ContentTypeHeader) == Some(JsonContentType)
            && Get(h, AccessKeyHeader) == Some(cfg.apiKey)
            && Get(h, AccessNonceHeader) == Some(Format(nonce))
            && Get(h, AccessSignatureHeader) == Some(Signer.Sign(mac, cfg.apiSecret, nonce, url, payload))
  {
  }

  /**
    A request with the signed headers passes the receiver's checks, which
    give back the nonce the client signed with.
  */
  lemma SignedRequestAuthenticates(cfg: Config, mac: Signer.Mac, nonce: Int64,
                                   httpMethod: string, url: string, payload: string)
    ensures Receiver.Authenticate(cfg.apiKey, cfg.apiSecret, mac,
              Request(httpMethod, url, SignedHeaders(cfg, mac, nonce, url, payload), payload)) == Some(nonce)
  {
    SignedHeadersRead(cfg, mac, nonce, url, payload);
    ParseFormat(nonce);
    assert Signer.Message(nonce, url, payload) == Format(nonce) + url + payload;
  }

  /**
    Every request handed to the transport carries the JSON content type,
    the API key, the nonce in decimal and the signature over that same
    nonce, the request's own URL and its own body, so the nonce header is
    a prefix of the signed message; a receiver holding the
    secret therefore authenticates it and recovers the nonce.
  */
  lemma DispatchedRequestsAuthenticate<Req, Resp>(cfg: Config, env: Env, codec: Codec<Req, Resp>, nonce: Int64,
                                                  httpMethod: string, path: string, request: Req)
    ensures var run := Call(cfg, env, codec, nonce, httpMethod, path, request);
            forall req :: req in Dispatched(run.events) ==>
              && Get(req.headers, ContentTypeHeader) == Some(JsonContentType)
              && Get(req.headers, AccessKeyHeader) == Some(cfg.apiKey)
              && Get(req.headers, AccessNonceHeader) == Some(Format(nonce))
              && Get(req.headers, AccessSignatureHeader)
                 == Some(Signer.Sign(env.mac, cfg.apiSecret, nonce, req.url, req.body))
              && Format(nonce) <= Signer.Message(nonce, req.url, req.body)
              && Receiver.Authenticate(cfg.apiKey, cfg.apiSecret, env.mac, req) == Some(nonce)
  {
    var run := Call(cfg, env, codec, nonce, httpMethod, path, request);
    DispatchedOnce(cfg, env, codec, nonce, httpMethod, path, request);
    forall req | req in Dispatched(run.events)
      ensures Get(req.headers, ContentTypeHeader) == Some(JsonContentType)
      ensures Get(req.headers, AccessKeyHeader) == Some(cfg.apiKey)
      ensures Get(req.headers, AccessNonceHeader) == Some(Format(nonce))
      ensures Get(req.headers, AccessSignatureHeader)
              == Some(Signer.Sign(env.mac, cfg.apiSecret, nonce, req.url, req.body))
      ensures Format(nonce) <= Signer.Message(nonce, req.url, req.body)
      ensures Receiver.Authenticate(cfg.apiKey, cfg.apiSecret, env.mac, req) == Some(nonce)
    {
      var payload := codec.marshal(request).value;
      var endpoint := Endpoint(cfg, path);
      assert req == SignedRequest(cfg, env.mac, nonce, httpMethod, endpoint, payload);
      SignedHeadersRead(cfg, env.mac, nonce, endpoint, payload);
      SignedRequestAuthenticates(cfg, env.mac, nonce, httpMethod, endpoint, payload);
    }
  }

  /**
    The transport's verdict on the dispatched request decides between a
    transport error, a status error carrying the HTTP status, and going on
    to decode that response's body; in the first two cases the decoder is
    never invoked.
  */
  lemma StatusDecidesDecode<Req, Resp>(cfg: Config, env: Env, codec: Codec<Req, Resp>, nonce: Int64,
                                       httpMethod: string, path: string, request: Req, req: Request)
    requires req in Dispatched(Call(cfg, env, codec, nonce, httpMethod, path, request).events)
    ensures var run := Call(cfg, env, codec, nonce, httpMethod, path, request);
            && (env.send(req).None? <==> run.result == Err(TransportFailed))
            && (env.send(req).Some? && env.send(req).value.statusCode != StatusOK
                ==> run.result == Err(BadStatus(env.send(req).value.statusCode)))
            && (run.result.Err? && run.result.error.BadStatus?
                ==> env.send(req).Some? && env.send(req).value.statusCode == run.result.error.code)
            && DecodedBodies(run.events)
               == (if env.send(req).Some? && env.send(req).value.statusCode == StatusOK
                   then [env.send(req).value.body] else [])
  {
    var run := Call(cfg, env, codec, nonce, httpMethod, path, request);
    DispatchedOnce(cfg, env, codec, nonce, httpMethod, path, request);
    var payload := codec.marshal(request).value;
    var logged: seq<Event<Resp>> := if cfg.debug then [PayloadLogged(payload)] else [];
    assert DecodedBodies(logged) == [];
    var endpoint := Endpoint(cfg, path);
    var sreq := SignedRequest(cfg, env.mac, nonce, httpMethod, endpoint, payload);
    var ex := Exchange(cfg, env, codec.decode, sreq);
    assert run.events == logged + ex.events;
    ExchangeTrace(cfg, env, codec.decode, sreq);
    DispatchedAppend(logged, ex.events);
    assert req == sreq;
    DecodedBodiesAppend(logged, ex.events);
  }

  /**
    A call reports a transport error only when the transport failed on the
    request it was given, and a status error only for a status other than
    200 that the transport returned; neither runs the decoder.
  */
  lemma FailuresBeforeDecode<Req, Resp>(cfg: Config, env: Env, codec: Codec<Req, Resp>, nonce: Int64,
                                        httpMethod: string, path: string, request: Req)
    ensures var run := Call(cfg, env, codec, nonce, httpMethod, path, request);
            run.result == Err(TransportFailed) ==>
              && DecodedBodies(run.events) == []
              && exists req :: req in Dispatched(run.events) && env.send(req).None?
    ensures var run := Call(cfg, env, codec, nonce, httpMethod, path, request);
            run.result.Err? && run.result.error.BadStatus? ==>
              && run.result.error.code != StatusOK
              && DecodedBodies(run.events) == []
              && exists req :: req in Dispatched(run.events) && env.send(req).Some?
                               && env.send(req).value.statusCode == run.result.error.code
  {
    var run := Call(cfg, env, codec, nonce, httpMethod, path, request);
    if run.result == Err(TransportFailed) || (run.result.Err? && run.result.error.BadStatus?) {
      DispatchedOnce(cfg, env, codec, nonce, httpMethod, path, request);
      var req := Dispatched(run.events)[0];
      StatusDecidesDecode(cfg, env, codec, nonce, httpMethod, path, request, req);
    }
  }

  /**
    The decoder only ever sees the body of a response whose HTTP status was
    200, and only after the request that produced it was sent.
  */
  lemma DecodeFollowsStatusOK<Req, Resp>(cfg: Config, env: Env, codec: Codec<Req, Resp>, nonce: Int64,
                                         httpMethod: string, path: string, request: Req)
    ensures var run := Call(cfg, env, codec, nonce, httpMethod, path, request);
            forall i :: 0 <= i < |run.events| && run.events[i].Decoded? ==>
              exists j :: 0 <= j < i && run.events[j].Sent?
                          && env.send(run.events[j].request) == Some(Response(StatusOK, run.events[i].body))
  {
    var run := Call(cfg, env, codec, nonce, httpMethod, path, request);
    if codec.marshal(request).Some? && env.newRequest(httpMethod, Endpoint(cfg, path)) {
      var payload := codec.marshal(request).value;
      var logged: seq<Event<Resp>> := if cfg.debug then [PayloadLogged(payload)] else [];
      var endpoint := Endpoint(cfg, path);
      var req := SignedRequest(cfg, env.mac, nonce, httpMethod, endpoint, payload);
      var ex := Exchange(cfg, env, codec.decode, req);
      assert run.events == logged + ex.events;
      var k := |logged|;
      assert run.events[k] == Sent(req);
      forall i | 0 <= i < |run.events| && run.events[i].Decoded?
        ensures exists j :: 0 <= j < i && run.events[j].Sent?
                            && env.send(run.events[j].request) == Some(Response(StatusOK, run.events[i].body))
      {
        assert i - k >= 1 && ex.events[i - k] == run.events[i];
        assert i == k + 1 && env.send(req) == Some(Response(StatusOK, run.events[i].body));
      }
    } else {
      assert |run.events| <= 1 && forall i :: 0 <= i < |run.events| ==> run.events[i].PayloadLogged?;
    }
  }

  /**
    A successful call returns exactly what the decoder made of the one body
    it was given, and a decode failure is reported only for a body the
    decoder was given, which happens only after the status check passed.
  */
  lemma OutcomeIsDecodedBody<Req, Resp>(cfg: Config, env: Env, codec: Codec<Req, Resp>, nonce: Int64,
                                        httpMethod: string, path: string, request: Req)
    ensures var run := Call(cfg, env, codec, nonce, httpMethod, path, request);
            run.result.Ok? ==>
              exists b :: DecodedBodies(run.events) == [b] && codec.decode(b) == Some(run.result.value)
    ensures var run := Call(cfg, env, codec, nonce, httpMethod, path, request);
            run.result == Err(DecodeFailed) ==>
              exists b :: DecodedBodies(run.events) == [b] && codec.decode(b).None?
  {
    var run := Call(cfg, env, codec, nonce, httpMethod, path, request);
    if run.result.Ok? || run.result == Err(DecodeFailed) {
      DispatchedOnce(cfg, env, codec, nonce, httpMethod, path, request);
      var req := Dispatched(run.events)[0];
      StatusDecidesDecode(cfg, env, codec, nonce, httpMethod, path, request, req);
      var payload := codec.marshal(request).value;
      var endpoint := Endpoint(cfg, path);
      assert req == SignedRequest(cfg, env.mac, nonce, httpMethod, endpoint, payload);
      assert run.result == Exchange(cfg, env, codec.decode, req).result;
      assert DecodedBodies(run.events) == [env.send(req).value.body];
    }
  }

  /**
    The debug flag changes only which log events happen: the result and
    every other event are the same with it on or off, and with it off
    nothing is logged.
  */
  lemma DebugOnlyLogs<Req, Resp>(cfg: Config, env: Env, codec: Codec<Req, Resp>, nonce: Int64,
                                 httpMethod: string, path: string, request: Req)
    ensures var loud := Call(cfg.(debug := true), env, codec, nonce, httpMethod, path, request);
            var quiet := Call(cfg.(debug := false), env, codec, nonce, httpMethod, path, request);
            && loud.result == quiet.result
            && Effects(loud.events) == quiet.events
            && Effects(quiet.events) == quiet.events
  {
    var on := cfg.(debug := true);
    var off := cfg.(debug := false);
    var loud := Call(on, env, codec, nonce, httpMethod, path, request);
    var quiet := Call(off, env, codec, nonce, httpMethod, path, request);
    if codec.marshal(request).Some? {
      var payload := codec.marshal(request).value;
      var endpoint := Endpoint(cfg, path);
      var log: seq<Event<Resp>> := [PayloadLogged(payload)];
      assert Effects(log) == [];
      if env.newRequest(httpMethod, endpoint) {
        var req := SignedRequest(cfg, env.mac, nonce, httpMethod, endpoint, payload);
        assert SignedRequest(on, env.mac, nonce, httpMethod, endpoint, payload) == req;
        assert SignedRequest(off, env.mac, nonce, httpMethod, endpoint, payload) == req;
        var ex := Exchange(on, env, codec.decode, req);
        var exQuiet := Exchange(off, env, codec.decode, req);
        assert loud.events == log + ex.events;
        assert quiet.events == exQuiet.events;
        assert on.(debug := false) == off && off.(debug := false) == off;
        ExchangeTrace(on, env, codec.decode, req);
        ExchangeTrace(off, env, codec.decode, req);
        EffectsAppend(log, ex.events);
      }
    }
  }
}
