/**
 * Token derivation and cookie check (`generateAuthToken`, `isAuthenticated`
 * and the cookie string of `handleLogin` in main.ts).
 */
module Auth {
  import opened Wrappers
  import opened HexEncoding
  import opened CookieToken

  /** A SHA-256 digest: 32 bytes. */
  type Digest = d: seq<byte> | |d| == 32 witness seq(32, _ => 0 as byte)

  /**
   * The process configuration the core reads. `password` is PROXY_PASSWORD
   * (`None` when the variable is unset); `sha256` stands for UTF-8 encoding
   * followed by `crypto.subtle.digest("SHA-256", …)`, a foreign call kept
   * uninterpreted.
   */
  datatype Config = Config(password: Option<string>, sha256: string -> Digest)

  /** `PROXY_PASSWORD` is truthy: set and not the empty string. */
  predicate AuthEnabled(cfg: Config)
  {
    cfg.password.Some? && cfg.password.value != ""
  }

  /** `generateAuthToken(password)`: the hex encoding of the password's digest. */
  function GenerateAuthToken(cfg: Config, password: string): (token: string)
    ensures |token| == 64 && IsLowerHex(token)
    ensures HexDecode(token) == Some(cfg.sha256(password))
  {
    HexEncodeIsLowerHex(cfg.sha256(password));
    HexDecodeEncode(cfg.sha256(password));
    HexEncode(cfg.sha256(password))
  }

  /**
   * An empty PROXY_PASSWORD is falsy: it turns authentication off exactly as
   * an unset one does, and only a non-empty password turns it on.
   */
  lemma EmptyPasswordDisablesAuth(cfg: Config, cookieHeader: Option<string>)
    requires cfg.password == Some("") || cfg.password.None?
    ensures !AuthEnabled(cfg) && IsAuthenticated(cfg, cookieHeader)
  {
  }

  /** Two passwords give the same token exactly when their digests agree. */
  lemma SameTokenIffSameDigest(cfg: Config, p: string, q: string)
    ensures GenerateAuthToken(cfg, p) == GenerateAuthToken(cfg, q)
        <==> cfg.sha256(p) == cfg.sha256(q)
  {
    HexEncodeInjective(cfg.sha256(p), cfg.sha256(q));
  }

  /** The token the server expects when a password is configured. */
  function ExpectedToken(cfg: Config): (token: string)
    requires AuthEnabled(cfg)
    ensures |token| == 64 && IsLowerHex(token)
  {
    GenerateAuthToken(cfg, cfg.password.value)
  }

  /**
   * `isAuthenticated(request)`, with the request reduced to its Cookie
   * header (`None` when absent, read as the empty string).
   */
  function IsAuthenticated(cfg: Config, cookieHeader: Option<string>): (ok: bool)
    ensures !AuthEnabled(cfg) ==> ok
    ensures ok && AuthEnabled(cfg) ==>
      cookieHeader.Some? && ExtractToken(cookieHeader.value) == Some(ExpectedToken(cfg))
  {
    if !AuthEnabled(cfg) then true
    else
      var cookies := cookieHeader.GetOr("");
      match ExtractToken(cookies)
      case None => false
      case Some(received) => received == ExpectedToken(cfg)
  }

  /** With no password configured every request is authenticated. */
  lemma AuthDisabledAcceptsAll(cfg: Config, cookieHeader: Option<string>)
    requires !AuthEnabled(cfg)
    ensures IsAuthenticated(cfg, cookieHeader)
  {
  }

  /** A missing Cookie header never authenticates when a password is set. */
  lemma MissingCookieRejected(cfg: Config)
    requires AuthEnabled(cfg)
    ensures !IsAuthenticated(cfg, None)
  {
    assert !MatchesAt("", 0);
  }

  /**
   * With a password set, a request is authenticated exactly when the pattern
   * matches somewhere and the `;`-free run after its leftmost match is the
   * expected token.
   */
  lemma IsAuthenticatedIff(cfg: Config, cookies: string)
    requires AuthEnabled(cfg)
    ensures IsAuthenticated(cfg, Some(cookies)) <==>
      exists i: nat :: MatchesAt(cookies, i)
        && (forall j: nat :: j < i ==> !MatchesAt(cookies, j))
        && RunUntilSemicolon(cookies[i + |Needle|..]) == ExpectedToken(cfg)
  {
    var t := FirstMatch(cookies, 0);
    if t.Some? {
      var i := t.value;
      ExtractTokenLeftmost(cookies, i);
      forall i': nat | MatchesAt(cookies, i') && (forall j: nat :: j < i' ==> !MatchesAt(cookies, j))
        ensures i' == i
      {
      }
    }
  }

  /** The attributes `handleLogin` puts after the cookie pair. */
  const CookieAttributes: seq<string> :=
    ["Path=/", "HttpOnly", "Secure", "SameSite=Lax", "Max-Age=86400"]

  /** `*( ";" SP cookie-av )` of a set-cookie-string (section 4.1.1 of RFC 6265). */
  function JoinAttributes(avs: seq<string>): string
  {
    if avs == [] then "" else "; " + avs[0] + JoinAttributes(avs[1..])
  }

  /** `cookie-pair *( ";" SP cookie-av )` (section 4.1.1 of RFC 6265). */
  function SetCookieString(name: string, value: string, avs: seq<string>): string
  {
    name + "=" + value + JoinAttributes(avs)
  }

  /**
   * The `Set-Cookie` value of a successful login. Its cookie pair, which a
   * user agent sends back in the Cookie header (section 5.4 of RFC 6265), is
   * everything before the first `;`.
   */
  function SessionCookie(token: string): (v: string)
    requires |token| > 0 && IsLowerHex(token)
    ensures v == SetCookieString(AuthCookieName, token, CookieAttributes)
    ensures RunUntilSemicolon(v) == Needle + token
  {
    var attrs := "; Path=/" + "; HttpOnly" + "; Secure" + "; SameSite=Lax" + "; Max-Age=86400";
    var v := AuthCookieName + "=" + token + attrs;
    AttributesJoined();
    NoSemicolonInNeedle();
    LowerHexHasNoSemicolon(token);
    var pair := Needle + token;
    assert forall k :: 0 <= k < |pair| ==> pair[k] != ';' by {
      forall k | 0 <= k < |pair| ensures pair[k] != ';' {
        if k >= |Needle| { assert pair[k] == token[k - |Needle|]; }
      }
    }
    assert v == pair + attrs && attrs[0] == ';';
    RunUntilSemicolonOf(pair, attrs);
    v
  }

  lemma JoinAttributesCons(av: string, avs: seq<string>)
    ensures JoinAttributes([av] + avs) == "; " + av + JoinAttributes(avs)
  {
    assert ([av] + avs)[1..] == avs;
  }

  lemma AttributesJoined()
    ensures JoinAttributes(CookieAttributes)
      == "; Path=/" + "; HttpOnly" + "; Secure" + "; SameSite=Lax" + "; Max-Age=86400"
  {
    JoinedFromHttpOnly();
    assert CookieAttributes == ["Path=/"] + ["HttpOnly", "Secure", "SameSite=Lax", "Max-Age=86400"];
    JoinAttributesCons("Path=/", ["HttpOnly", "Secure", "SameSite=Lax", "Max-Age=86400"]);
    assert "; " + "Path=/" == "; Path=/";
  }

  lemma JoinedFromHttpOnly()
    ensures JoinAttributes(["HttpOnly", "Secure", "SameSite=Lax", "Max-Age=86400"])
      == "; HttpOnly" + "; Secure" + "; SameSite=Lax" + "; Max-Age=86400"
  {
    JoinedFromSecure();
    JoinAttributesCons("HttpOnly", ["Secure", "SameSite=Lax", "Max-Age=86400"]);
    assert "; " + "HttpOnly" == "; HttpOnly";
  }

  lemma JoinedFromSecure()
    ensures JoinAttributes(["Secure", "SameSite=Lax", "Max-Age=86400"])
      == "; Secure" + "; SameSite=Lax" + "; Max-Age=86400"
  {
    JoinedFromSameSite();
    JoinAttributesCons("Secure", ["SameSite=Lax", "Max-Age=86400"]);
    assert "; " + "Secure" == "; Secure";
  }

  lemma JoinedFromSameSite()
    ensures JoinAttributes(["SameSite=Lax", "Max-Age=86400"]) == "; SameSite=Lax" + "; Max-Age=86400"
  {
    JoinAttributesCons("Max-Age=86400", []);
    assert "; " + "Max-Age=86400" == "; Max-Age=86400";
    JoinAttributesCons("SameSite=Lax", ["Max-Age=86400"]);
    assert "; " + "SameSite=Lax" == "; SameSite=Lax";
  }

  lemma NoSemicolonInNeedle()
    ensures forall k :: 0 <= k < |Needle| ==> Needle[k] != ';'
  {
  }

  lemma LowerHexHasNoSemicolon(s: string)
    requires IsLowerHex(s)
    ensures forall k :: 0 <= k < |s| ==> s[k] != ';'
  {
  }

  /**
   * Every character of a token is a `cookie-octet` (section 4.1.1 of
   * RFC 6265), so the token needs no quoting in a cookie value.
   */
  lemma TokenIsCookieValue(cfg: Config, password: string)
    ensures forall k :: 0 <= k < |GenerateAuthToken(cfg, password)| ==>
      IsCookieOctet(GenerateAuthToken(cfg, password)[k])
  {
  }

  /** `%x21 / %x23-2B / %x2D-3A / %x3C-5B / %x5D-7E`. */
  predicate IsCookieOctet(c: char)
  {
    c == '!' || ('#' <= c <= '+') || ('-' <= c <= ':') || ('<' <= c <= '[') || (']' <= c <= '~')
  }

  /**
   * The cookie issued at login authenticates when it comes back as the
   * first place in the Cookie header where the pattern matches: after any
   * text `pre` in which it does not match, and followed by nothing or by `;`
   * and other cookies (which may even repeat the name with another value).
   */
  lemma IssuedCookieAuthenticates(cfg: Config, pre: string, rest: string)
    requires AuthEnabled(cfg)
    requires rest == [] || rest[0] == ';'
    requires forall j: nat :: j < |pre| ==>
      !MatchesAt(pre + RunUntilSemicolon(SessionCookie(ExpectedToken(cfg))) + rest, j)
    ensures IsAuthenticated(cfg, Some(pre + RunUntilSemicolon(SessionCookie(ExpectedToken(cfg))) + rest))
  {
    var token := ExpectedToken(cfg);
    LowerHexHasNoSemicolon(token);
    var s := pre + Needle + token + rest;
    assert RunUntilSemicolon(SessionCookie(token)) == Needle + token;
    assert pre + RunUntilSemicolon(SessionCookie(token)) + rest == s;
    forall j: nat | j < |pre| ensures !MatchesAt(s, j) {
    }
    PairYieldsToken(pre, token, rest);
  }

  /**
   * Any other value at the first place where the pattern matches is refused,
   * even when a later pair carries the expected token.
   */
  lemma OtherTokenRejected(cfg: Config, pre: string, token: string, rest: string)
    requires AuthEnabled(cfg)
    requires |token| > 0 && forall k :: 0 <= k < |token| ==> token[k] != ';'
    requires rest == [] || rest[0] == ';'
    requires forall j: nat :: j < |pre| ==> !MatchesAt(pre + Needle + token + rest, j)
    requires token != ExpectedToken(cfg)
    ensures !IsAuthenticated(cfg, Some(pre + Needle + token + rest))
  {
    PairYieldsToken(pre, token, rest);
  }

  /**
   * A cookie value holding the name shadows the real session cookie after it:
   * the header `a=api_proxy_auth_token=zz; api_proxy_auth_token=<expected>`
   * is refused.
   */
  lemma NeedleInValueShadowsSession(cfg: Config)
    requires AuthEnabled(cfg)
    ensures !IsAuthenticated(cfg, Some("a=" + Needle + "zz" + ("; " + Needle + ExpectedToken(cfg))))
  {
    ValueHoldingNeedleIsRead("zz", "; " + Needle + ExpectedToken(cfg));
  }
}
