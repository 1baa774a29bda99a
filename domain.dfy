/**
 * Domain normalisation and URL building (`normalizeDomain` and `buildUrl`).
 * index.js and main.js carry identical copies of `normalizeDomain`; this is
 * the one definition both parts of the model use.
 */
module Domain {
  import opened Wrappers
  import opened Strings

  datatype Protocol = Http | Https {
    /** The scheme written before `://`. */
    function Scheme(): string {
      match this
      case Http => "http"
      case Https => "https"
    }

    /** The label shown for the protocol in results. */
    function Label(): string {
      match this
      case Http => "HTTP"
      case Https => "HTTPS"
    }
  }

  const HttpPrefix: string := "http://"
  const HttpsPrefix: string := "https://"

  predicate HasSchemePrefix(s: string) {
    StartsWith(s, HttpPrefix) || StartsWith(s, HttpsPrefix)
  }

  /** `replace(/^https?:\/\//, '')`: one leading scheme prefix comes off. */
  function StripScheme(s: string): (r: string)
    ensures s == HttpPrefix + r || s == HttpsPrefix + r || (r == s && !HasSchemePrefix(s))
  {
    if StartsWith(s, HttpsPrefix) then s[|HttpsPrefix|..]
    else if StartsWith(s, HttpPrefix) then s[|HttpPrefix|..]
    else s
  }

  lemma SuffixNoUpper(c: string, n: string)
    requires NoUpper(c)
    requires c == HttpPrefix + n || c == HttpsPrefix + n || c == n
    ensures NoUpper(n)
  {
    var k := |c| - |n|;
    assert forall i :: 0 <= i < |n| ==> n[i] == c[k + i];
  }

  /** A literal with no white space at its ends and no upper-case letter is its own canonical form. */
  lemma CanonicalFixed(s: string)
    requires s != [] && !IsSpace(s[0]) && !IsSpace(s[|s| - 1]) && NoUpper(s)
    ensures Canonical(s) == s
  {
    TrimFixed(s);
    LowerFacts(s);
  }

  /** What a normalised host must satisfy: at least 3 characters and a dot. */
  predicate IsHostLike(h: string) {
    |h| >= 3 && '.' in h
  }

  /** The trimmed, lower-cased form that normalisation starts from. */
  function Canonical(domain: string): string {
    Lower(Trim(domain))
  }

  /** `normalizeDomain`: `None` is the source's `null`. */
  function Normalize(domain: string): (r: Option<string>)
    ensures domain == "" ==> r.None?
    ensures r.Some? ==> IsHostLike(r.value) && NoUpper(r.value)
    ensures r.Some? ==> (Canonical(domain) == r.value
                        || Canonical(domain) == HttpPrefix + r.value
                        || Canonical(domain) == HttpsPrefix + r.value)
  {
    if domain == "" then None
    else
      var n := StripScheme(Canonical(domain));
      LowerFacts(Trim(domain));
      SuffixNoUpper(Canonical(domain), n);
      if |n| < 3 then None
      else if '.' !in n then None
      else Some(n)
  }

  /** `Normalize` gives `h` exactly when `h` looks like a host and the
      canonical input is `h` behind `http://`, behind `https://`, or `h`
      itself when `h` has no scheme prefix of its own. */
  lemma NormalizeSpec(domain: string, h: string)
    ensures Normalize(domain) == Some(h) <==>
      IsHostLike(h) &&
      (Canonical(domain) == HttpPrefix + h || Canonical(domain) == HttpsPrefix + h
       || (Canonical(domain) == h && !HasSchemePrefix(h)))
  {
    var c := Canonical(domain);
    if IsHostLike(h) && (c == HttpPrefix + h || c == HttpsPrefix + h || (c == h && !HasSchemePrefix(h))) {
      assert domain != "";
      if c == HttpsPrefix + h {
        assert StartsWith(c, HttpsPrefix);
      } else if c == HttpPrefix + h {
        assert c[..|HttpsPrefix|][4] != HttpsPrefix[4];
        assert StartsWith(c, HttpPrefix);
      }
    }
  }

  /** `http://` followed by a host with no upper-case letter or trailing
      white space normalises to that host. */
  lemma NormalizeStripsHttp(h: string)
    requires h != [] && NoUpper(h) && !IsSpace(h[|h| - 1])
    ensures Normalize(HttpPrefix + h) == if IsHostLike(h) then Some(h) else None
  {
    var s := HttpPrefix + h;
    assert NoUpper(s) by {
      assert forall i :: |HttpPrefix| <= i < |s| ==> s[i] == h[i - |HttpPrefix|];
    }
    CanonicalFixed(s);
    assert StartsWith(s, HttpPrefix);
    assert !StartsWith(s, HttpsPrefix) by {
      assert s[4] != HttpsPrefix[4];
    }
    assert StripScheme(s) == h;
  }

  /** Normalisation is not idempotent: a doubled scheme loses only one layer,
      so normalising again strips a second one. */
  lemma NormalizeNotIdempotent(h: string)
    requires IsHostLike(h) && NoUpper(h) && !IsSpace(h[|h| - 1])
    ensures Normalize(HttpPrefix + (HttpPrefix + h)) == Some(HttpPrefix + h)
    ensures Normalize(HttpPrefix + h) == Some(h) != Some(HttpPrefix + h)
  {
    var g := HttpPrefix + h;
    assert Normalize(g) == Some(h) by {
      NormalizeStripsHttp(h);
    }
    HostBehindHttp(h);
    assert Normalize(HttpPrefix + g) == Some(g) by {
      NormalizeStripsHttp(g);
    }
  }

  /** `http://` followed by such a host is again such a host. */
  lemma HostBehindHttp(h: string)
    requires h != [] && '.' in h && NoUpper(h) && !IsSpace(h[|h| - 1])
    ensures var g := HttpPrefix + h; IsHostLike(g) && NoUpper(g) && !IsSpace(g[|g| - 1])
  {
    var g := HttpPrefix + h;
    assert forall i :: |HttpPrefix| <= i < |g| ==> g[i] == h[i - |HttpPrefix|];
    var k :| 0 <= k < |h| && h[k] == '.';
    assert g[|HttpPrefix| + k] == '.';
  }

  /** A result of `Normalize` that carries no scheme prefix and does not
      start with white space (`"http:// a.com"` gives `" a.com"`) normalises
      to itself. */
  lemma RenormalizeFixes(domain: string, h: string)
    requires Normalize(domain) == Some(h)
    requires !HasSchemePrefix(h) && !IsSpace(h[0])
    ensures Normalize(h) == Some(h)
  {
    NormalizedLast(domain, h);
    NormalizeFixes(h);
  }

  /** A host with no scheme prefix, no upper-case letter and no white space
      at its ends normalises to itself. */
  lemma NormalizeFixes(h: string)
    requires IsHostLike(h) && NoUpper(h) && !HasSchemePrefix(h)
    requires !IsSpace(h[0]) && !IsSpace(h[|h| - 1])
    ensures Normalize(h) == Some(h)
  {
    CanonicalFixed(h);
    assert StripScheme(Canonical(h)) == h;
  }

  /** A normalised host does not end in white space. */
  lemma NormalizedLast(domain: string, h: string)
    requires Normalize(domain) == Some(h)
    ensures !IsSpace(h[|h| - 1])
  {
    HostLast(domain, h);
  }

  /** A host that is the canonical text, with or without a scheme prefix,
      does not end in white space. */
  lemma HostLast(domain: string, h: string)
    requires h != []
    requires Canonical(domain) == h || Canonical(domain) == HttpPrefix + h || Canonical(domain) == HttpsPrefix + h
    ensures !IsSpace(h[|h| - 1])
  {
    var t := Trim(domain);
    var l := Lower(t);
    SuffixLast(l, h);
    LowerCharNotSpace(t[|t| - 1]);
    assert l[|t| - 1] == LowerChar(t[|t| - 1]);
  }

  /** Lower-casing a character that is not white space gives none. */
  lemma LowerCharNotSpace(c: char)
    requires !IsSpace(c)
    ensures !IsSpace(LowerChar(c))
  {
  }

  /** The host behind an optional scheme prefix ends where the text ends. */
  lemma SuffixLast(l: string, h: string)
    requires h != []
    requires l == h || l == HttpPrefix + h || l == HttpsPrefix + h
    ensures |l| >= |h| && l[|l| - 1] == h[|h| - 1]
  {
  }

  /** `buildUrl(domain, protocol)`: the domain is normalised again, and the
      result re-checked, before the scheme is prepended. */
  function BuildUrl(domain: string, protocol: Protocol): (r: Option<string>)
    ensures r.None? <==> Normalize(domain).None?
    ensures r.Some? ==> r.value == protocol.Scheme() + "://" + Normalize(domain).value
  {
    var n := Normalize(domain);
    if n.None? then None
    else if |n.value| < 3 || '.' !in n.value then None
    else Some(protocol.Scheme() + "://" + n.value)
  }

  /** The task body calls `buildUrl` on an already normalised host, so a host
      that itself begins with a scheme is normalised twice. For a short tail
      such as `"a."`, `"http://a."` is a result of `normalizeDomain` (of
      `"http://http://a."`), yet `buildUrl` rejects it for either protocol. */
  lemma BuildUrlRejectsNormalizedHost(h: string, p: Protocol)
    requires h != [] && |h| < 3 && '.' in h && NoUpper(h) && !IsSpace(h[|h| - 1])
    ensures Normalize(HttpPrefix + (HttpPrefix + h)) == Some(HttpPrefix + h)
    ensures BuildUrl(HttpPrefix + h, p) == None
  {
    var g := HttpPrefix + h;
    assert Normalize(g) == None by {
      NormalizeStripsHttp(h);
    }
    assert Normalize(HttpPrefix + g) == Some(g) by {
      HostBehindHttp(h);
      NormalizeStripsHttp(g);
    }
  }
}
