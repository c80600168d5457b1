/** The two middlewares in front of every protected route: `authenticateToken`
    (bearer token present and valid) and `adminOnly` (caller is an
    administrator). Token signature and expiry checking is a library call,
    modelled as an oracle from token text to the claims it carries. */
module Auth {
  import opened Common
  import opened Text

  /** The claims signed into a token at login. */
  datatype Claims = Claims(id: int, nome: string, isAdmin: bool)

  /** The library's verification: the claims of a token whose signature and
      expiry check out, `None` for any other text. */
  type Verifier = string -> Option<Claims>

  /** Outcome of the middleware chain: go on to the handler with the caller's
      claims, or answer with an error status. */
  datatype Decision = Proceed(claims: Claims) | Reject(status: int)

  /** `authHeader && authHeader.split(" ")[1]`. `None` is `undefined`: no
      header, or a header without a space. An empty header short-circuits to
      the empty string itself, which is not `null` and goes on to verification. */
  function BearerToken(header: Option<string>): (r: Option<string>)
    ensures header.None? ==> r.None?
    ensures header == Some("") ==> r == Some("")
    ensures header.Some? && header.value != "" ==> (r.Some? <==> ' ' in header.value)
    ensures header.Some? && ' ' in header.value && r.Some? ==>
              var rest := header.value[IndexOf(header.value, ' ') + 1..];
              && ' ' !in r.value
              && |r.value| <= |rest| && r.value == rest[..|r.value|]
              && (|r.value| == |rest| || rest[|r.value|] == ' ')
  {
    match header
    case None => None
    case Some(h) =>
      if h == "" then Some("")
      else
        var parts := Split(h, ' ');
        if |parts| > 1 then Some(parts[1]) else None
  }

  /** The header a client builds from a token, as `getAuthHeaders` does. */
  function AuthorizationHeader(token: string): string
  {
    "Bearer " + token
  }

  /** The token a client sends is the token the server verifies. */
  lemma BearerTokenRoundTrip(token: string)
    requires ' ' !in token
    ensures BearerToken(Some(AuthorizationHeader(token))) == Some(token)
  {
    var parts := ["Bearer", token];
    assert Join(parts, ' ') == AuthorizationHeader(token);
    assert forall k :: 0 <= k < |parts| ==> ' ' !in parts[k] by {
      assert ' ' !in "Bearer";
    }
    SplitJoin(parts, ' ');
  }

  /** `authenticateToken`: no token is 401, a token the verifier refuses is
      403, otherwise the request goes on with the verified claims. */
  function Authenticate(header: Option<string>, verify: Verifier): (d: Decision)
    ensures BearerToken(header).None? <==> d == Reject(UNAUTHORIZED)
    ensures d == Reject(FORBIDDEN) <==>
              BearerToken(header).Some? && verify(BearerToken(header).value).None?
    ensures d.Proceed? ==>
              BearerToken(header).Some? && verify(BearerToken(header).value) == Some(d.claims)
    ensures BearerToken(header).Some? && verify(BearerToken(header).value).Some? ==>
              d == Proceed(verify(BearerToken(header).value).value)
  {
    match BearerToken(header)
    case None => Reject(UNAUTHORIZED)
    case Some(token) =>
      match verify(token)
      case None => Reject(FORBIDDEN)
      case Some(claims) => Proceed(claims)
  }

  /** `adminOnly`: only a caller whose claims say administrator goes on. */
  function AdminOnly(claims: Claims): (d: Decision)
    ensures d.Proceed? <==> claims.isAdmin
    ensures d.Proceed? ==> d.claims == claims
    ensures d.Reject? ==> d.status == FORBIDDEN
  {
    if claims.isAdmin then Proceed(claims) else Reject(FORBIDDEN)
  }

  /** The middleware chain of a route: `authenticateToken`, then `adminOnly`
      on the administration routes. Its three outcomes are each stated in
      both directions. */
  function Gate(header: Option<string>, verify: Verifier, adminRoute: bool): (d: Decision)
    ensures d == Reject(UNAUTHORIZED) <==> BearerToken(header).None?
    ensures d == Reject(FORBIDDEN) <==>
              BearerToken(header).Some? &&
              (verify(BearerToken(header).value).None? ||
               (adminRoute && !verify(BearerToken(header).value).value.isAdmin))
    ensures d.Proceed? <==>
              BearerToken(header).Some? &&
              verify(BearerToken(header).value).Some? &&
              (!adminRoute || verify(BearerToken(header).value).value.isAdmin)
    ensures d.Proceed? ==> d.claims == verify(BearerToken(header).value).value
  {
    match Authenticate(header, verify)
    case Reject(s) => Reject(s)
    case Proceed(claims) => if adminRoute then AdminOnly(claims) else Proceed(claims)
  }

  /** A header with no space, such as a bare `Bearer`, carries no token. */
  lemma HeaderWithoutSpaceIsUnauthorized(h: string, verify: Verifier, adminRoute: bool)
    requires h != "" && ' ' !in h
    ensures Gate(Some(h), verify, adminRoute) == Reject(UNAUTHORIZED)
  {
  }

  /** An empty header is not a missing token: the empty string reaches the
      verifier, and a verifier that refuses it makes the answer 403. */
  lemma EmptyHeaderIsForbidden(verify: Verifier, adminRoute: bool)
    requires verify("").None?
    ensures Gate(Some(""), verify, adminRoute) == Reject(FORBIDDEN)
  {
  }
}
