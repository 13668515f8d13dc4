# Signed HTTP API client — Dafny model

A model of the request-signing and response-classification pipeline of a
small Go API client (`client.go`). For every call the client marshals the
typed request to JSON, builds an HTTP request for base endpoint plus path,
takes a nanosecond timestamp as nonce, signs `decimal(nonce) ++ url ++
payload` with HMAC-SHA256 under the API secret, attaches four headers,
sends the request, rejects any HTTP status other than 200, and decodes the
body. The `Hello` operation wraps that call with a fixed method and path and
a second, application-level status check.

Modules, one per concern of the source:

- `Wrappers` — `Option` and `Result`.
- `Decimal` — `%d` rendering of an `int64` (the nonce header and the start of
  the signed message) and, as its inverse, a parser in the style of
  `strconv.ParseInt(s, 10, 64)`; round trips in both directions.
- `Http` — headers, requests, responses as values; `Get` is an exact-name
  header lookup that returns the first value.
- `Signer` — `createSig`: the signed message and the signature over it, with
  what the message does and does not pin down.
- `Receiver` — a reference check of a signed request value, written
  independently of the client: it is the partner against which header
  assembly is proved. It verifies over the exact URL string the client
  signed; a real server sees only the Host header and the request URI and
  would have to rebuild that string.
- `Client` — configuration, collaborators, the `call` pipeline, and its trace.
- `CallProperties` — what every run of `call` guarantees.
- `Hello` — the `Hello` operation and three scenarios, one of which its test exercises.

The collaborators the client calls but does not define are parameters, as
function values: the MAC (`(key, message) -> hex`), whether `http.NewRequest`
accepts a method and URL, the transport (`Request -> Option<Response>`, None
for a transport error), JSON marshal (`Req -> Option<string>`) and JSON decode
(`string -> Option<Resp>`). The clock is replaced by the nonce argument,
which a call that fails before signing leaves unused. A
call returns a `Run`: the result (a value or exactly one `CallError`) and the
ordered trace of what it did — payload logged, request sent, body handed to
the decoder, response logged — so that "nothing was sent", "the decoder was
never invoked" and "debug only affects logging" are statements about values.

Three facts of the code shape the model:

- client.go:73 discards the result of `req.WithContext(ctx)`, so no context
  reaches the transport; cancellation is not modelled.
- client.go:88 formats the body reader itself, not its contents, so
  `BadStatus` carries only the status code.
- Header names are kept as the code passes them to `Header.Add`
  (`Content-type`, `ACCESS-KEY`, …); the model does not canonicalise them.

## Model

| member | source | states |
|---|---|---|
| Decimal.Format | client.go:78 | the nonce text is an optional minus sign followed by digits with no superfluous leading zero, never "-0", and starts with a minus exactly for negative nonces |
| Decimal.ParseFormat | client.go:78 | reading the nonce header as an int64 gives back exactly the nonce that was rendered |
| Decimal.FormatParse | client.go:78 | every canonical decimal text of an int64 is the rendering of the number it parses to |
| Decimal.FormatInjective | client.go:75-78 | two different nonces never produce the same nonce header text |
| Signer.Message | client.go:53 | the signed message is the nonce text, then the URL, then the payload, with no characters added between or around them |
| Signer.SplitMessage | client.go:51-55 | when URL and payload do not start with a digit, the signed message gives back the nonce and the URL-and-payload text |
| Signer.MessageDeterminesNonce | client.go:53 | under that condition equal signed messages carry the same nonce and the same URL-and-payload text |
| Signer.SignatureDependsOnMessage | client.go:51-55 | the signature is a function of the secret and the signed message alone |
| Signer.MessageAmbiguity | client.go:53 | with no separators, nonce 1 with URL "2/x" and nonce 12 with URL "/x" sign the same message, and moving text between URL and payload does not change it |
| Signer.Sign | client.go:51-56 | the signature is the MAC under the API secret of the nonce text followed by URL and payload; with SignatureDependsOnMessage, it depends on the secret and that message alone |
| Client.SignedHeaders | client.go:76-79 | four headers, the nonce header holding the nonce text and the signature header the MAC over that same nonce text followed by URL and payload; SignedHeadersRead reads all four back by name (content type, key, nonce, signature) |
| Client.SignedRequest | client.go:69-81 | the request handed to the transport has the caller's method (GET when the caller passed an empty one, as `http.NewRequest` does), the endpoint string as given and the payload as body, and its signature header is the MAC over its own nonce header, URL and body (DispatchedOnce shows every dispatched request is this one) |
| Client.Endpoint | client.go:68 | the request target is the base endpoint followed by the path, with nothing inserted or normalised |
| Client.Exchange | client.go:81-94 | the request is sent first, and a transport error is reported exactly when the transport fails |
| Client.Call | client.go:58-100 | a marshal failure is reported exactly when marshalling fails and then nothing is logged or sent; a construction failure is reported exactly when marshalling succeeded and request construction failed, and then nothing is sent |
| CallProperties.ExchangeTrace | client.go:81-98 | one request is sent, the decoder sees the body exactly when the status was 200, and result and non-log events do not depend on the debug flag |
| CallProperties.DispatchedOnce | client.go:60-81 | a request reaches the transport exactly once when marshal and construction succeed and never otherwise, with the caller's method (GET for an empty one), base endpoint plus path as URL, and the marshalled payload as body, signed over that same URL and payload |
| CallProperties.SignedHeadersRead | client.go:76-79 | the headers carry the JSON content type, the API key, the nonce in decimal and the signature over that nonce, URL and payload |
| CallProperties.SignedRequestAuthenticates | client.go:75-79 | a request with those headers passes the receiver's checks, which recover the nonce that was signed |
| CallProperties.DispatchedRequestsAuthenticate | client.go:68-81 | every dispatched request carries the four headers agreeing with the one nonce and the body actually sent, the nonce header is a prefix of the signed message, and the receiver authenticates it with that nonce |
| CallProperties.StatusDecidesDecode | client.go:81-94 | for the dispatched request a transport failure, a status other than 200 and a 200 lead to transport error, status error with that code, and decoding of that response's body respectively |
| CallProperties.FailuresBeforeDecode | client.go:81-89 | a transport error or status error means the decoder never ran, and a status error carries a non-200 code the transport returned |
| CallProperties.DecodeFollowsStatusOK | client.go:87-93 | every body handed to the decoder comes from a response with status 200 to a request sent earlier in the same run |
| CallProperties.OutcomeIsDecodedBody | client.go:91-99 | success returns what the decoder made of the one decoded body, and a decode failure is reported only for a body that reached the decoder |
| CallProperties.DebugOnlyLogs | client.go:64-98 | with debug on or off the result and every non-log event are the same, and with debug off nothing is logged |
| Hello.Hello | client.go:114-125 | succeeds exactly when the call succeeds with application status 0 and returns the decoded response unchanged; call failures are tagged with method and path; a non-zero status after HTTP 200 is an error carrying that status |
| Hello.HelloTarget | client.go:115-118 | every request Hello sends is a GET of the base endpoint followed by /v1/api/hello |
| Hello.MockServerHello | client_test.go:12-29 | against a server answering 200 with status 0 and "hello!!", Hello returns that response |
| Hello.ApplicationStatusOverridesHttpOK | client.go:121-123 | HTTP 200 with a non-zero decoded status yields the application status error with that status |
| Hello.HttpErrorSkipsDecode | client.go:87-89 | a status other than 200 yields the call failure carrying that status, tagged GET and /v1/api/hello, and nothing is decoded |

## Left out

- HMAC-SHA256 and hex encoding (client.go:52-55): foreign cryptography; an opaque function of key and message, of which only determinism is used.
- JSON marshal and decode (client.go:60, 91-92): library calls; partial functions supplied by the caller. In particular the decoder's defaulting of a missing `status` field to 0 is the decoder's business, not the model's.
- The `net/http` transport and `http.NewRequest` validation (client.go:69, 81): opaque parameters; of `http.NewRequest`'s own processing only the empty-method default (GET) is modelled.
- Client.SignedRequest: the request carries the endpoint string exactly as passed to `http.NewRequest`; the normalisation `url.Parse` applies to the stored URL (lower-cased scheme, an empty port dropped from the host, the fragment split off) is not modelled. The signature covers the raw endpoint string either way (client.go:79).
- Http.Get: compares header names exactly; the canonicalisation `net/http` applies to keys in `Header.Add` and `Header.Get` (so that lookups ignore case) is not modelled.
- The clock (client.go:75): the nonce is an argument. Nonce uniqueness is enforced nowhere in the code and is not claimed.
- Context cancellation (client.go:73): the context is never attached to the request.
- Closing the response body (client.go:85): a resource concern with no effect on results.
- Logger text and the no-op default logger of `NewClient` (client.go:40-48, 65, 97): logging is an event in the trace, not formatted text.
- Error message wording (client.go:62, 71, 83, 88, 93, 119, 122): errors are modelled by kind and carried values, not by their strings.
- Hello.Hello: a nil request pointer is not modelled; the request is always a value, and marshalling it is the codec's concern.
- server.go and testing.go: a canned test server and a configuration fixture; the test server's reply is the premise of Hello.MockServerHello.
