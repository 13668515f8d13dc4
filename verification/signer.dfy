/** Request signing: the message `createSig` authenticates and the signature over it. */
module Signer {
  import opened Wrappers
  import opened Decimal

  /**
    HMAC-SHA256 keyed by the first argument over the second, rendered as
    lowercase hex. Opaque: the model relies only on its being a function.
  */
  type Mac = (string, string) -> string

  /** The signed message: the nonce in decimal, then the URL, then the payload, with nothing between them. */
  function Message(nonce: Int64, url: string, payload: string): (m: string)
    ensures |m| == |Format(nonce)| + |url| + |payload|
    ensures m[..|Format(nonce)|] == Format(nonce)
    ensures m[|Format(nonce)|..|Format(nonce)| + |url|] == url
    ensures m[|Format(nonce)| + |url|..] == payload
  {
    Format(nonce) + url + payload
  }

  /** `createSig`: the MAC, under the API secret, of the nonce text followed by URL and payload. */
  function Sign(mac: Mac, secret: string, nonce: Int64, url: string, payload: string): (signature: string)
    ensures signature == mac(secret, Format(nonce) + url + payload)
  {
    mac(secret, Message(nonce, url, payload))
  }

  /** Cuts a message after its leading signed digit run, where a reader would look for the nonce. */
  function SplitNonce(m: string): (r: (string, string))
    ensures r.0 + r.1 == m
  {
    var k := if |m| > 0 && m[0] == '-' then 1 + DigitRun(m[1..]) else DigitRun(m);
    (m[..k], m[k..])
  }

  /**
    When what follows the nonce does not start with a digit, the message
    gives back the nonce and the URL-and-payload text it was built from.
  */
  lemma SplitMessage(nonce: Int64, url: string, payload: string)
    requires url + payload == [] || !IsDigit((url + payload)[0])
    ensures SplitNonce(Message(nonce, url, payload)) == (Format(nonce), url + payload)
    ensures Parse(SplitNonce(Message(nonce, url, payload)).0) == Some(nonce)
  {
    var f := Format(nonce);
    var rest := url + payload;
    var m := Message(nonce, url, payload);
    assert m == f + rest;
    if nonce < 0 {
      assert m[1..] == f[1..] + rest;
      DigitRunOfDigitsThen(f[1..], rest);
    } else {
      DigitRunOfDigitsThen(f, rest);
    }
    assert m[..|f|] == f;
    assert m[|f|..] == rest;
    ParseFormat(nonce);
  }

  /**
    Under the same condition two signed messages are equal only if they
    carry the same nonce and the same URL-and-payload text.
  */
  lemma MessageDeterminesNonce(n1: Int64, u1: string, p1: string, n2: Int64, u2: string, p2: string)
    requires u1 + p1 == [] || !IsDigit((u1 + p1)[0])
    requires u2 + p2 == [] || !IsDigit((u2 + p2)[0])
    requires Message(n1, u1, p1) == Message(n2, u2, p2)
    ensures n1 == n2 && u1 + p1 == u2 + p2
  {
    SplitMessage(n1, u1, p1);
    SplitMessage(n2, u2, p2);
    FormatInjective(n1, n2);
  }

  /** The signature depends on the secret and the message only. */
  lemma SignatureDependsOnMessage(mac: Mac, secret: string, n1: Int64, u1: string, p1: string,
                                  n2: Int64, u2: string, p2: string)
    requires Message(n1, u1, p1) == Message(n2, u2, p2)
    ensures Sign(mac, secret, n1, u1, p1) == Sign(mac, secret, n2, u2, p2)
  {
  }

  /**
    Without separators the message does not fix where the nonce ends when
    the URL starts with a digit, nor where the URL ends and the payload
    begins: such pairs of requests share one signature.
  */
  lemma MessageAmbiguity(mac: Mac, secret: string, payload: string)
    ensures Message(1, "2/x", payload) == Message(12, "/x", payload)
    ensures Sign(mac, secret, 1, "2/x", payload) == Sign(mac, secret, 12, "/x", payload)
    ensures Message(7, "/a", "b" + payload) == Message(7, "/ab", payload)
  {
    assert Format(1) == "1";
    assert Digits(12) == Digits(1) + [DigitChar(2)];
    assert Format(12) == "12";
    assert "1" + "2/x" + payload == "12" + "/x" + payload;
    assert Format(7) + "/a" + ("b" + payload) == Format(7) + "/ab" + payload;
  }
}
