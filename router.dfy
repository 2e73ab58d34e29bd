/**
 * The request dispatcher of main.ts: the `OPTIONS` short-circuit of the
 * `serve` handler, `main`'s ordered chain of early returns, `handleLogin`
 * and `generateLoginPage`. Requests and responses are abstracted to the parts
 * these functions read and write.
 */
module Router {
  import opened Wrappers
  import opened HexEncoding
  import opened CookieToken
  import opened Auth

  type Header = (string, string)

  /** What `formData.get("password")` returns: nothing, a text entry or a file. */
  datatype FormValue = FieldAbsent | FieldText(text: string) | FieldFile

  /** The outcome of `request.formData()`: it throws, or yields the password entry. */
  datatype LoginForm = FormUnreadable | FormParsed(password: FormValue)

  /**
   * An inbound request: its method (`verb`), the `pathname` of its URL, its Cookie
   * header (`None` when absent) and its form body as the login handler reads it.
   */
  datatype Request = Request(verb: string, pathname: string, cookie: Option<string>, form: LoginForm)

  /** The body of a response `main` builds itself; `LoginHtml` is the login page's HTML. */
  datatype Body = NoBody | Text(text: string) | LoginHtml(errorMessage: string)

  /**
   * A response. `Reply` is one built in main.ts; the other three are produced
   * by functions whose bodies are not part of this model: `handleDashboardPage`,
   * `serveStaticFile` (given the file path) and `handleApiRequest` (given the
   * matched prefix and the pathname).
   */
  datatype Response =
    | Reply(status: nat, headers: seq<Header>, body: Body)
    | DashboardPage
    | StaticFile(filePath: string)
    | ApiForward(prefix: string, pathname: string)

  const PreflightHeaders: seq<Header> := [
    ("Access-Control-Allow-Origin", "*"),
    ("Access-Control-Allow-Methods", "GET, POST, PUT, DELETE, PATCH, OPTIONS"),
    ("Access-Control-Allow-Headers", "Content-Type, Authorization, X-Requested-With"),
    ("Access-Control-Max-Age", "86400")
  ]

  /** The 204 answer to every `OPTIONS` request. */
  const Preflight: Response := Reply(204, PreflightHeaders, NoBody)

  const ConfigErrorMessage: string := "身份验证后端配置错误。"
  const InvalidPasswordMessage: string := "密码无效。"
  const LoginFailedMessage: string := "登录过程中发生错误。"

  const RobotsTxt: Response :=
    Reply(200, [("Content-Type", "text/plain")], Text("User-agent: *\nDisallow: /"))
  const Forbidden: Response := Reply(403, [], Text("Forbidden"))
  const NotFound: Response := Reply(404, [], Text("Not Found"))

  /** `generateLoginPage(errorMessage)`: the login form with status 401. */
  function LoginPage(errorMessage: string): (r: Response)
    ensures r.Reply? && r.status == 401 && r.body.LoginHtml?
    ensures r.body.errorMessage == errorMessage
    ensures r.headers == [("Content-Type", "text/html; charset=UTF-8")]
  {
    Reply(401, [("Content-Type", "text/html; charset=UTF-8")], LoginHtml(errorMessage))
  }

  /** The login page shows an error paragraph only for a non-empty message. */
  predicate ShowsError(r: Response)
  {
    r.Reply? && r.body.LoginHtml? && r.body.errorMessage != ""
  }

  /** The value of header `name` in `headers`, if present. */
  function HeaderValue(headers: seq<Header>, name: string): (v: Option<string>)
    ensures v.Some? <==> exists i :: 0 <= i < |headers| && headers[i].0 == name
    ensures v.Some? ==>
              exists i :: 0 <= i < |headers| && headers[i] == (name, v.value)
                          && forall j :: 0 <= j < i ==> headers[j].0 != name
  {
    if headers == [] then None
    else if headers[0].0 == name then Some(headers[0].1)
    else HeaderValue(headers[1..], name)
  }

  /** The error paragraph appears exactly for a non-empty message. */
  lemma LoginPageShowsErrorIff(errorMessage: string)
    ensures ShowsError(LoginPage(errorMessage)) <==> errorMessage != ""
  {
  }

  /** `handleLogin(request)`. */
  function HandleLogin(cfg: Config, form: LoginForm): (r: Response)
    ensures r.Reply? && r.status in {302, 401, 500}
    ensures r.status == 500 <==> !AuthEnabled(cfg)
  {
    if !AuthEnabled(cfg) then Reply(500, [], Text(ConfigErrorMessage))
    else
      match form
      case FormUnreadable => LoginPage(LoginFailedMessage)
      case FormParsed(password) =>
        if password == FieldText(cfg.password.value) then
          var token := ExpectedToken(cfg);
          Reply(302, [("Location", "/"), ("Set-Cookie", SessionCookie(token))], NoBody)
        else LoginPage(InvalidPasswordMessage)
  }

  /** `s.startsWith(prefix)`. */
  predicate StartsWith(s: string, prefix: string)
  {
    |prefix| <= |s| && s[..|prefix|] == prefix
  }

  predicate OccursAt(s: string, t: string, i: nat)
  {
    i + |t| <= |s| && s[i..i + |t|] == t
  }

  /** `s.includes(t)`. */
  predicate Includes(s: string, t: string)
  {
    exists i :: 0 <= i <= |s| - |t| && OccursAt(s, t, i)
  }

  predicate IsDashboardPath(pathname: string)
  {
    pathname == "/" || pathname == "/index.html"
  }

  /**
   * `main(request)`. `prefix` is what `extractPrefixAndRest` found for the
   * pathname (`None` when no configured prefix matches); a request is an API
   * request exactly when it is `Some`.
   */
  function Main(cfg: Config, req: Request, prefix: Option<string>): (r: Response)
    ensures r.Reply? ==> r.status in {200, 302, 401, 403, 404, 500}
    ensures r.ApiForward? ==> prefix == Some(r.prefix) && r.pathname == req.pathname
  {
    var pathname := req.pathname;
    var isApiEndpoint := prefix.Some?;
    if !isApiEndpoint && pathname == "/login" && req.verb == "POST" then
      HandleLogin(cfg, req.form)
    else if !isApiEndpoint && IsDashboardPath(pathname) && AuthEnabled(cfg)
      && !IsAuthenticated(cfg, req.cookie) then
      LoginPage("")
    else if IsDashboardPath(pathname) then DashboardPage
    else if pathname == "/robots.txt" then RobotsTxt
    else if StartsWith(pathname, "/public/") then
      if Includes(pathname, "..") then Forbidden else StaticFile("." + pathname)
    else if isApiEndpoint then ApiForward(prefix.value, pathname)
    else NotFound
  }

  /** The `serve` handler without its logging: `OPTIONS` first, then `main`. */
  function Serve(cfg: Config, req: Request, prefix: Option<string>): (r: Response)
    ensures r.Reply? && r.status == 204 <==> req.verb == "OPTIONS"
  {
    if req.verb == "OPTIONS" then Preflight else Main(cfg, req, prefix)
  }

  // ---------------------------------------------------------------------
  // Properties of the dispatcher
  // ---------------------------------------------------------------------

  /**
   * Every `OPTIONS` request, on any path and in any configuration, gets the
   * 204 preflight answer with no body and exactly the four CORS headers;
   * `main` is not consulted.
   */
  lemma OptionsIsPreflight(cfg: Config, req: Request, prefix: Option<string>)
    requires req.verb == "OPTIONS"
    ensures var r := Serve(cfg, req, prefix);
      && r.Reply? && r.status == 204 && r.body == NoBody
      && r.headers == PreflightHeaders
      && HeaderValue(r.headers, "Access-Control-Allow-Origin") == Some("*")
      && HeaderValue(r.headers, "Access-Control-Allow-Methods") == Some("GET, POST, PUT, DELETE, PATCH, OPTIONS")
      && HeaderValue(r.headers, "Access-Control-Allow-Headers") == Some("Content-Type, Authorization, X-Requested-With")
      && HeaderValue(r.headers, "Access-Control-Max-Age") == Some("86400")
  {
    var h := PreflightHeaders;
    assert h[1..][1..][1..][1..] == [];
  }

  /** Any other method is answered by `main`. */
  lemma NonOptionsGoesToMain(cfg: Config, req: Request, prefix: Option<string>)
    requires req.verb != "OPTIONS"
    ensures Serve(cfg, req, prefix) == Main(cfg, req, prefix)
  {
  }

  /**
   * With no password configured, `/` and `/index.html` serve the dashboard
   * whatever the cookies, the method (other than `OPTIONS`) and the prefix.
   */
  lemma AuthDisabledServesDashboard(cfg: Config, req: Request, prefix: Option<string>)
    requires !AuthEnabled(cfg)
    requires IsDashboardPath(req.pathname) && req.verb != "OPTIONS"
    ensures Serve(cfg, req, prefix) == DashboardPage
  {
  }

  /** With no password configured, a login attempt is a configuration error. */
  lemma LoginWithoutPassword(cfg: Config, form: LoginForm)
    requires !AuthEnabled(cfg)
    ensures HandleLogin(cfg, form) == Reply(500, [], Text(ConfigErrorMessage))
  {
  }

  /**
   * The right password yields a 302 to `/` whose `Set-Cookie` is the session
   * cookie carrying the expected token; the cookie pair in it authenticates
   * when it comes back as the first match of the pattern in the Cookie
   * header.
   */
  lemma LoginSuccess(cfg: Config, pre: string, rest: string)
    requires AuthEnabled(cfg)
    requires rest == [] || rest[0] == ';'
    requires forall j: nat :: j < |pre| ==>
      !MatchesAt(pre + RunUntilSemicolon(SessionCookie(ExpectedToken(cfg))) + rest, j)
    ensures var r := HandleLogin(cfg, FormParsed(FieldText(cfg.password.value)));
      && r.Reply? && r.status == 302 && r.body == NoBody
      && HeaderValue(r.headers, "Location") == Some("/")
      && HeaderValue(r.headers, "Set-Cookie")
         == Some(SetCookieString(AuthCookieName, ExpectedToken(cfg), CookieAttributes))
      && IsAuthenticated(cfg, Some(pre + RunUntilSemicolon(HeaderValue(r.headers, "Set-Cookie").value) + rest))
  {
    IssuedCookieAuthenticates(cfg, pre, rest);
  }

  /**
   * Anything but the configured password as a text entry (a wrong value, no
   * entry, a file) yields the 401 login page with the invalid-password error
   * and no cookie; an unreadable form yields it with the login-error message.
   */
  lemma LoginFailure(cfg: Config, form: LoginForm)
    requires AuthEnabled(cfg)
    requires form != FormParsed(FieldText(cfg.password.value))
    ensures var r := HandleLogin(cfg, form);
      && r == LoginPage(if form.FormUnreadable? then LoginFailedMessage else InvalidPasswordMessage)
      && ShowsError(r)
      && HeaderValue(r.headers, "Set-Cookie").None?
  {
  }

  /** `handleLogin` issues a cookie exactly when the submitted password is right. */
  lemma LoginRedirectsIff(cfg: Config, form: LoginForm)
    ensures HandleLogin(cfg, form).Reply? && HandleLogin(cfg, form).status == 302
      <==> AuthEnabled(cfg) && form == FormParsed(FieldText(cfg.password.value))
  {
  }

  /** `POST /login` on a non-API path goes to the login handler. */
  lemma LoginRoute(cfg: Config, req: Request)
    requires req.verb == "POST" && req.pathname == "/login"
    ensures Main(cfg, req, None) == HandleLogin(cfg, req.form)
  {
  }

  /**
   * The dashboard gate: with a password set, a non-API request for `/` or
   * `/index.html` gets the dashboard exactly when it is authenticated, and
   * otherwise the login page without an error message.
   */
  lemma DashboardGate(cfg: Config, req: Request)
    requires AuthEnabled(cfg) && IsDashboardPath(req.pathname)
    ensures Main(cfg, req, None) == DashboardPage <==> IsAuthenticated(cfg, req.cookie)
    ensures !IsAuthenticated(cfg, req.cookie) ==>
      Main(cfg, req, None) == LoginPage("") && !ShowsError(Main(cfg, req, None))
  {
  }

  /**
   * API paths are never cookie-gated: for an API request the response depends
   * on nothing but the pathname and the prefix, not on the configuration, the
   * method, the cookies or the form.
   */
  lemma ApiBypassesAuth(cfg1: Config, cfg2: Config, req1: Request, req2: Request, prefix: string)
    requires req1.pathname == req2.pathname
    ensures Main(cfg1, req1, Some(prefix)) == Main(cfg2, req2, Some(prefix))
    ensures !Main(cfg1, req1, Some(prefix)).Reply? || Main(cfg1, req1, Some(prefix)).status != 401
  {
  }

  /**
   * An API request that is not for `/`, `/index.html`, `/robots.txt` or a
   * `/public/` path is forwarded under its prefix.
   */
  lemma ApiIsForwarded(cfg: Config, req: Request, prefix: string)
    requires !IsDashboardPath(req.pathname) && req.pathname != "/robots.txt"
    requires !StartsWith(req.pathname, "/public/")
    ensures Main(cfg, req, Some(prefix)) == ApiForward(prefix, req.pathname)
  {
  }

  /** `/robots.txt` is answered with a plain-text disallow-all. */
  lemma RobotsRoute(cfg: Config, req: Request, prefix: Option<string>)
    requires req.pathname == "/robots.txt"
    ensures Main(cfg, req, prefix)
      == Reply(200, [("Content-Type", "text/plain")], Text("User-agent: *\nDisallow: /"))
  {
  }

  /**
   * A `/public/` path containing `..` is refused with 403 and never reaches
   * static serving, whatever the authentication state.
   */
  lemma TraversalForbidden(cfg: Config, req: Request, prefix: Option<string>, i: nat)
    requires StartsWith(req.pathname, "/public/")
    requires i + 1 < |req.pathname| && req.pathname[i] == '.' && req.pathname[i + 1] == '.'
    ensures Main(cfg, req, prefix) == Reply(403, [], Text("Forbidden"))
  {
    assert req.pathname[i..i + 2] == "..";
    assert OccursAt(req.pathname, "..", i);
  }

  /**
   * Static files are served from `.` + pathname exactly for `/public/` paths
   * free of `..`, and without any cookie check.
   */
  lemma StaticRoute(cfg: Config, req: Request, prefix: Option<string>)
    ensures Main(cfg, req, prefix).StaticFile? <==>
      StartsWith(req.pathname, "/public/") && !Includes(req.pathname, "..")
    ensures Main(cfg, req, prefix).StaticFile? ==>
      Main(cfg, req, prefix).filePath == "." + req.pathname
  {
    if StartsWith(req.pathname, "/public/") {
      assert req.pathname[..8] == "/public/";
      assert req.pathname[1] == 'p';
    }
  }

  /**
   * 404 is the answer exactly for a non-API request that matches no rule;
   * among them is any `/login` request that is not a `POST`.
   */
  lemma NotFoundRoute(cfg: Config, req: Request, prefix: Option<string>)
    ensures Main(cfg, req, prefix) == Reply(404, [], Text("Not Found")) <==>
      && prefix.None?
      && !(req.pathname == "/login" && req.verb == "POST")
      && !IsDashboardPath(req.pathname) && req.pathname != "/robots.txt"
      && !StartsWith(req.pathname, "/public/")
  {
  }

  /** The dashboard is served exactly for `/` and `/index.html`, and past the gate. */
  lemma DashboardIff(cfg: Config, req: Request, prefix: Option<string>)
    ensures Main(cfg, req, prefix) == DashboardPage <==>
      IsDashboardPath(req.pathname)
      && (prefix.Some? || !AuthEnabled(cfg) || IsAuthenticated(cfg, req.cookie))
  {
  }
}
