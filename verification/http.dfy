/** The HTTP values the client builds and receives, as plain data. */
module Http {
  import opened Wrappers

  /** `http.StatusOK`. */
  const StatusOK: int := 200

  /** The header names the API's request signing uses, spelled as the client adds them. */
  const ContentTypeHeader: string := "Content-type"
  const AccessKeyHeader: string := "ACCESS-KEY"
  const AccessNonceHeader: string := "ACCESS-NONCE"
  const AccessSignatureHeader: string := "ACCESS-SIGNATURE"
  const JsonContentType: string := "application/json"

  datatype Header = Header(name: string, value: string)

  /** An outgoing request: method, target URL, headers in the order added, body. */
  datatype Request = Request(httpMethod: string, url: string, headers: seq<Header>, body: string)

  /** What the transport hands back on a completed round trip. */
  datatype Response = Response(statusCode: int, body: string)

  /** The first value recorded under exactly `name` (no case folding). */
  function Get(headers: seq<Header>, name: string): (r: Option<string>)
    ensures r.None? <==> forall i :: 0 <= i < |headers| ==> headers[i].name != name
    ensures r.Some? ==> exists i :: 0 <= i < |headers| && headers[i] == Header(name, r.value)
                                    && forall j :: 0 <= j < i ==> headers[j].name != name
    decreases |headers|
  {
    if headers == [] then None
    else if headers[0].name == name then Some(headers[0].value)
    else
      var r := Get(headers[1..], name);
      assert forall i :: 0 < i < |headers| ==> headers[i] == headers[1..][i - 1];
      assert r.Some? ==> exists i :: 0 < i < |headers| && headers[i] == Header(name, r.value)
                                     && forall j :: 0 <= j < i ==> headers[j].name != name by {
        if r.Some? {
          var k :| 0 <= k < |headers[1..]| && headers[1..][k] == Header(name, r.value)
                   && forall j :: 0 <= j < k ==> headers[1..][j].name != name;
          assert headers[k + 1] == Header(name, r.value);
          assert forall j :: 0 <= j < k + 1 ==> headers[j].name != name by {
            forall j | 0 <= j < k + 1 ensures headers[j].name != name {
              if j > 0 { assert headers[j] == headers[1..][j - 1]; }
            }
          }
        }
      }
      r
  }
}
