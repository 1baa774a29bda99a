/**
 * One connection attempt (`testUrl`). The HTTP client, its agents, timeouts
 * and retries are outside the model: the prober is a parameter that maps a
 * URL to what the client reported, a response or a thrown error, together
 * with the elapsed time the clock would have shown.
 */
module Probe {
  import opened Strings
  import opened Domain

  /** A response of any status (HTTP error statuses are not thrown), or an error message. */
  datatype Reply =
    | Responded(statusCode: nat, elapsed: nat)
    | Errored(message: string, elapsed: nat)

  type Prober = string -> Reply

  /** The object `testUrl` resolves to. */
  datatype Attempt =
    | Success(statusCode: nat, responseTime: nat, protocol: Protocol)
    | Failure(error: string, responseTime: nat, protocol: Protocol)

  /** `url.startsWith('https') ? 'HTTPS' : 'HTTP'`. */
  function ProtocolOf(url: string): (p: Protocol)
    ensures p == Https <==> StartsWith(url, "https")
  {
    if StartsWith(url, "https") then Https else Http
  }

  /** `testUrl(url)`: a response is a success whatever its status; a thrown
      error is a failure carrying its message. */
  function TestUrl(url: string, probe: Prober): (a: Attempt)
    ensures a.Success? <==> probe(url).Responded?
    ensures a.protocol == ProtocolOf(url) && a.responseTime == probe(url).elapsed
  {
    match probe(url)
    case Responded(code, t) => Success(code, t, ProtocolOf(url))
    case Errored(msg, t) => Failure(msg, t, ProtocolOf(url))
  }

  /** The attempt reports the status or the message the client gave. */
  lemma TestUrlCarries(url: string, probe: Prober)
    ensures TestUrl(url, probe).Success? ==> TestUrl(url, probe).statusCode == probe(url).statusCode
    ensures TestUrl(url, probe).Failure? ==> TestUrl(url, probe).error == probe(url).message
  {
  }

  /** Reading the protocol back off a built URL gives the protocol it was built with. */
  lemma BuiltUrlProtocol(domain: string, p: Protocol)
    requires BuildUrl(domain, p).Some?
    ensures ProtocolOf(BuildUrl(domain, p).value) == p
  {
    SchemeProtocol(Normalize(domain).value, p);
  }

  /** The scheme in front of a host decides the protocol. */
  lemma SchemeProtocol(h: string, p: Protocol)
    ensures ProtocolOf(p.Scheme() + "://" + h) == p
  {
    var u := p.Scheme() + "://" + h;
    if p == Http {
      assert u[4] == ':';
      assert !StartsWith(u, "https");
    } else {
      assert u[..5] == "https";
    }
  }
}
