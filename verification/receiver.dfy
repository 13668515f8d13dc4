/**
  What an API server checks of a signed request: a JSON content type, the
  expected key, a nonce header that reads as an `int64`, and a signature
  header equal to the MAC of nonce header, URL and body. This is a
  reference check on the request value the client builds, written
  independently of how the client assembles its headers. It verifies over
  the exact URL string the client signed; a real server sees only the Host
  header and the request URI and would have to rebuild that string, so this
  is not a guarantee about any particular server.
*/
module Receiver {
  import opened Wrappers
  import opened Decimal
  import opened Http
  import Signer

  /** The nonce of an authentic request, or None when any check fails. */
  function Authenticate(apiKey: string, secret: string, mac: Signer.Mac, req: Request): (r: Option<Int64>)
    ensures r.Some? ==> Get(req.headers, AccessKeyHeader) == Some(apiKey)
    ensures r.Some? ==> Get(req.headers, AccessNonceHeader).Some?
                        && Parse(Get(req.headers, AccessNonceHeader).value) == r
  {
    var contentType := Get(req.headers, ContentTypeHeader);
    var key := Get(req.headers, AccessKeyHeader);
    var nonceText := Get(req.headers, AccessNonceHeader);
    var signature := Get(req.headers, AccessSignatureHeader);
    if contentType != Some(JsonContentType) || key != Some(apiKey) then None
    else if nonceText.None? || signature.None? then None
    else if signature.value != mac(secret, nonceText.value + req.url + req.body) then None
    else Parse(nonceText.value)
  }
}
