/** `UploadGPSData`: one POST of a payload to the collection endpoint. The
    HTTP client is not modelled; what is modelled is the choice of whether a
    client certificate is sent, whether the server certificate is verified,
    and which responses count as success. File existence is an input. */
module Uploading {

  /** Python's `s[:n]`: the first `n` characters, or all of `s` if shorter. */
  function Prefix(s: string, n: nat): (p: string)
    ensures |p| == if |s| < n then |s| else n
    ensures p <= s
  {
    if |s| < n then s else s[..n]
  }

  /** `lower` on one character, for the five characters the scheme test
      compares. Only ASCII letters are mapped. A URL read from a JSON
      configuration is a `unicode` string, whose `lower` also maps other
      letters, but no non-ASCII character lowercases to 'h', 't', 'p' or
      's', so the test's outcome is the same. */
  function LowerAscii(c: char): char
  {
    if 'A' <= c <= 'Z' then (c as int + 32) as char else c
  }

  function Lower(s: string): (r: string)
    ensures |r| == |s|
    ensures forall i :: 0 <= i < |s| ==> r[i] == LowerAscii(s[i])
  {
    seq(|s|, i requires 0 <= i < |s| => LowerAscii(s[i]))
  }

  /** The endpoint URL's scheme test in `upload`: its first five characters,
      lowercased, are "https". */
  predicate IsHttps(url: string)
  {
    Lower(Prefix(url, 5)) == "https"
  }

  /** The credential test shared by `upload` and `GPSTracker.run`: both paths
      non-empty and both files present. */
  predicate CredentialsPresent(cert: string, key: string, certExists: bool, keyExists: bool)
  {
    cert != "" && key != "" && certExists && keyExists
  }

  /** The URL an uploader posts to: base URL, upload API path and client name. */
  function UploadUrl(base: string, api: string, clientName: string): string
  {
    base + api + clientName
  }

  /** The two ways `upload` calls `requests.post`. */
  datatype Transmission =
    | Plain
    | WithClientCert(cert: string, key: string, sslVerify: bool)

  /** The branch `upload` takes. */
  function ChooseTransmission(url: string, cert: string, key: string,
                              certExists: bool, keyExists: bool, sslVerify: bool): (t: Transmission)
    ensures t.WithClientCert? <==> IsHttps(url) && CredentialsPresent(cert, key, certExists, keyExists)
    ensures t.WithClientCert? ==> t == WithClientCert(cert, key, sslVerify)
  {
    if !IsHttps(url) || cert == "" || key == "" || !certExists || !keyExists then Plain
    else WithClientCert(cert, key, sslVerify)
  }

  /** Whether the server certificate is checked: the plain call leaves the
      client library's default (verify), the client-certificate call passes
      SSL_VERIFY. */
  function VerifiesServer(t: Transmission): bool
  {
    match t
    case Plain => true
    case WithClientCert(_, _, v) => v
  }

  /** The scheme test is an ASCII case-insensitive match of the first five
      characters. */
  lemma {:induction false} IsHttpsIffSchemeLetters(url: string)
    ensures IsHttps(url) <==> |url| >= 5 && forall i :: 0 <= i < 5 ==> LowerAscii(url[i]) == "https"[i]
  {
    var p := Lower(Prefix(url, 5));
    if |url| >= 5 && forall i :: 0 <= i < 5 ==> LowerAscii(url[i]) == "https"[i] {
      assert |p| == 5;
      forall i | 0 <= i < 5 ensures p[i] == "https"[i] {
        assert Prefix(url, 5)[i] == url[i];
      }
    }
    if IsHttps(url) {
      assert |url| >= 5;
      forall i | 0 <= i < 5 ensures LowerAscii(url[i]) == "https"[i] {
        assert p[i] == "https"[i];
        assert Prefix(url, 5)[i] == url[i];
      }
    }
  }

  /** An upper-case scheme sends the certificate like a lower-case one, and
      a plain "http:" URL never does. */
  lemma SchemeCaseIgnored(rest: string, cert: string, key: string, sslVerify: bool)
    requires cert != "" && key != ""
    ensures ChooseTransmission("HTTPS" + rest, cert, key, true, true, sslVerify) == WithClientCert(cert, key, sslVerify)
    ensures ChooseTransmission("https" + rest, cert, key, true, true, sslVerify) == WithClientCert(cert, key, sslVerify)
    ensures ChooseTransmission("http:" + rest, cert, key, true, true, sslVerify) == Plain
  {
    IsHttpsIffSchemeLetters("HTTPS" + rest);
    IsHttpsIffSchemeLetters("https" + rest);
    IsHttpsIffSchemeLetters("http:" + rest);
    assert LowerAscii(("http:" + rest)[4]) != "https"[4];
  }

  /** SSL_VERIFY = false disables server verification only on the
      client-certificate branch. */
  lemma SslVerifyOnlyWithClientCert(url: string, cert: string, key: string,
                                    certExists: bool, keyExists: bool, sslVerify: bool)
    ensures !VerifiesServer(ChooseTransmission(url, cert, key, certExists, keyExists, sslVerify))
            <==> !sslVerify && IsHttps(url) && CredentialsPresent(cert, key, certExists, keyExists)
  {
  }

  /** The server's answer to one attempt, or a transport failure (timeout,
      connection error or any other exception the client raises). */
  datatype Response = Status(code: int) | TransportError

  /** `upload` returns normally exactly on status 200 (`requests.codes.ok`);
      otherwise it raises. */
  predicate Accepted(r: Response)
  {
    r.Status? && r.code == 200
  }

  /** One call of `upload`: the branch taken and whether it returned normally. */
  datatype UploadAttempt = UploadAttempt(transmission: Transmission, ok: bool)

  function Upload(url: string, cert: string, key: string, certExists: bool, keyExists: bool,
                  sslVerify: bool, response: Response): (a: UploadAttempt)
    ensures a.ok <==> response == Status(200)
    ensures a.transmission.WithClientCert? <==> IsHttps(url) && CredentialsPresent(cert, key, certExists, keyExists)
  {
    UploadAttempt(ChooseTransmission(url, cert, key, certExists, keyExists, sslVerify), Accepted(response))
  }

  /** In either branch a status other than 200 is a failure. */
  lemma NonOkStatusFails(url: string, cert: string, key: string, certExists: bool, keyExists: bool,
                         sslVerify: bool, code: int)
    requires code != 200
    ensures !Upload(url, cert, key, certExists, keyExists, sslVerify, Status(code)).ok
    ensures !Upload(url, cert, key, certExists, keyExists, sslVerify, TransportError).ok
  {
  }

  /** The upload URL is tested after composition: a base URL shorter than five
      characters takes the rest of its scheme test from the API path. */
  lemma SchemeTestedOnComposedUrl(api: string, clientName: string)
    requires |api| >= 1 && api[0] == 's'
    ensures IsHttps(UploadUrl("http", api, clientName))
  {
    var url := UploadUrl("http", api, clientName);
    assert url[..5] == "https";
    IsHttpsIffSchemeLetters(url);
  }
}
