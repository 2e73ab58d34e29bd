# api-proxy request core, modelled in Dafny

This project models the decision core of `main.ts`, a Deno reverse proxy.
The proxy hides a few upstream AI APIs behind one domain and guards its
dashboard with a shared-password cookie. The modelled parts are:

- **Token encoding** (`hex.dfy`, module `HexEncoding`). `generateAuthToken`
  writes each digest byte with `toString(16)`, pads it to two digits with
  `padStart(2, "0")` and joins the pieces. The model builds the radix-16
  string and the padding the same way. It proves that every byte becomes
  exactly two lower-case digits, high nibble first. An independent decoder is
  proved to be the exact inverse in both directions, so the encoding is
  injective.
- **Cookie check** (`cookie.dfy`, module `CookieToken`; `auth.dfy`, module
  `Auth`). `isAuthenticated` searches the Cookie header with the unanchored
  pattern `api_proxy_auth_token=([^;]+)`. The model writes this search as a
  scan for the leftmost position where the pattern matches, followed by the
  greedy run of non-`;` characters. The received token must equal the hex
  token of the configured password. A missing header reads as the empty
  string. An unset or empty `PROXY_PASSWORD` (JavaScript falsy) disables
  authentication.
- **Login** (`auth.dfy`, `router.dfy`). `handleLogin` answers 500 when no
  password is set. It answers 302 with the session cookie when the submitted
  password is right, and the 401 login page with an error message otherwise.
  The `Set-Cookie` value is proved to have the `cookie-pair *( ";" SP
  cookie-av )` shape of section 4.1.1 of RFC 6265, with the five attributes
  the source writes. Its token is made only of `cookie-octet` characters.
  Sending its cookie pair back authenticates the request when it is the
  first place in the Cookie header where the pattern matches.
- **Dispatcher** (`router.dfy`, module `Router`). The `OPTIONS` branch of the
  `serve` handler comes first, then `main`'s ordered chain of early returns:
  login, the dashboard gate, the dashboard, `robots.txt`, `/public/` with its
  `..` refusal, API forwarding and 404. Each outcome is characterised by
  lemmas, most of them in both directions.

The digest is a field `sha256: string -> Digest` of the configuration. It
stands for UTF-8 encoding followed by `crypto.subtle.digest("SHA-256", …)`,
and it stays uninterpreted. Any 32-byte digest function is admitted.

Prefix matching (`extractPrefixAndRest`) is not shown in the source, so the
matched prefix is an input to `Main` and `Serve`. A request is an API
request exactly when that input is `Some`. The dashboard, static-file and
API-forwarding responses come from functions whose bodies are also not
shown. They are the opaque responses `DashboardPage`, `StaticFile(path)`
and `ApiForward(prefix, pathname)`.

Two behaviours of the code that a reader might not expect are modelled as written:

- The cookie lookup is not an exact-name lookup. The pattern is not anchored
  at a cookie boundary, so it also finds the name at the end of a longer
  cookie name (`CookieToken.LongerCookieNameIsRead`) or inside another
  cookie's value (`CookieToken.ValueHoldingNeedleIsRead`). Only the first
  match counts. Such an earlier match hides the real session cookie after
  it (`Auth.NeedleInValueShadowsSession`). A later pair with the same name
  is never looked at.
- Only `/` and `/index.html` are cookie-gated. `/public/` files are served
  without any cookie check (`Router.StaticRoute`).

## Model

| member | source | states |
|---|---|---|
| `HexEncoding.ToRadix16` | main.ts:35 | `toString(16)` of a number: at least one lower-case digit, no leading zero unless the number is 0, one digit exactly for values below 16 |
| `HexEncoding.ToRadix16Value` | main.ts:35 | the digits written denote the number they were made from |
| `HexEncoding.PadStart` | main.ts:35 | `padStart` with a one-character fill string |
| `HexEncoding.PadStartShape` | main.ts:35 | `padStart` keeps a long enough string, and otherwise fills on the left up to the target length with the string as suffix |
| `HexEncoding.ByteToHex` | main.ts:35 | a byte padded with `padStart(2, "0")` is exactly two digits: high nibble, then low nibble |
| `HexEncoding.HexEncode` | main.ts:33-36 | the joined encoding is twice as long as the digest |
| `HexEncoding.HexEncodeAt` | main.ts:33-36 | byte `k` lands at positions `2k` and `2k+1`, in order |
| `HexEncoding.HexEncodeIsLowerHex` | main.ts:33-37 | every character of the encoding is a lower-case hex digit |
| `HexEncoding.HexDecodeEncode` | main.ts:33-37 | decoding the encoding gives back the digest |
| `HexEncoding.HexEncodeDecode` | main.ts:33-37 | every string the decoder accepts is the encoding of what it decodes to |
| `HexEncoding.HexEncodeInjective` | main.ts:33-37 | two digests have the same encoding if and only if they are equal |
| `CookieToken.RunUntilSemicolon` | main.ts:44 | the greedy `[^;]+` capture: the longest `;`-free prefix, ended by `;` or the end of the header |
| `CookieToken.FirstMatch` | main.ts:44 | the unanchored search finds the leftmost position where the name, `=` and one non-`;` character occur |
| `CookieToken.ExtractToken` | main.ts:44-45 | a token is found if and only if the pattern occurs somewhere; a found token is non-empty and `;`-free |
| `CookieToken.ExtractTokenLeftmost` | main.ts:44-45 | the token is the run after the leftmost match, not after a later one |
| `CookieToken.PairYieldsToken` | main.ts:43-45 | a pair `api_proxy_auth_token=<t>` followed by `;` or the end yields `t` when the pattern matches nowhere before it, whatever follows |
| `CookieToken.ValueHoldingNeedleIsRead` | main.ts:44 | the name inside another cookie's value (`a=api_proxy_auth_token=<t>`) is read as the session cookie |
| `CookieToken.LongerCookieNameIsRead` | main.ts:44 | a cookie named with one extra leading character before `api_proxy_auth_token` is read as the session cookie |
| `Auth.GenerateAuthToken` | main.ts:29-38 | the token is 64 lower-case hex digits that decode to the password's digest |
| `Auth.SameTokenIffSameDigest` | main.ts:29-38 | two passwords give the same token if and only if their digests agree |
| `Auth.ExpectedToken` | main.ts:49 | the expected token is 64 lower-case hex digits |
| `Auth.IsAuthenticated` | main.ts:40-51 | authentication always succeeds with no password set; with one, success needs a Cookie header whose extracted token is the expected one |
| `Auth.AuthDisabledAcceptsAll` | main.ts:41 | with `PROXY_PASSWORD` unset or empty, every cookie header authenticates |
| `Auth.MissingCookieRejected` | main.ts:43-47 | with a password set, a request without a Cookie header is refused |
| `Auth.IsAuthenticatedIff` | main.ts:40-51 | with a password set, authenticated if and only if the pattern matches and the run after its leftmost match equals the expected token |
| `Auth.OtherTokenRejected` | main.ts:43-50 | any other token at the first place where the pattern matches is refused, even if a later pair carries the expected one |
| `Auth.NeedleInValueShadowsSession` | main.ts:43-50 | `a=api_proxy_auth_token=zz; api_proxy_auth_token=<expected>` is refused: the earlier match in a value hides the session cookie |
| `Auth.AuthEnabled` | main.ts:41 | the falsy test on `PROXY_PASSWORD`: authentication is on only for a set, non-empty password |
| `Auth.EmptyPasswordDisablesAuth` | main.ts:41 | an empty `PROXY_PASSWORD`, like an unset one, turns authentication off and accepts every cookie header |
| `Auth.SessionCookie` | main.ts:151 | the `Set-Cookie` value is the RFC 6265 set-cookie-string `api_proxy_auth_token=<token>` with `Path=/`, `HttpOnly`, `Secure`, `SameSite=Lax`, `Max-Age=86400`; its cookie pair is everything before the first `;` |
| `Auth.AttributesJoined` | main.ts:151 | the five attributes joined as `; av` pieces give the attribute text the source writes |
| `Auth.TokenIsCookieValue` | main.ts:150-151 | every token character is an RFC 6265 `cookie-octet` |
| `Auth.IssuedCookieAuthenticates` | main.ts:150-151 | the cookie pair issued at login authenticates when it is the first place in the Cookie header where the pattern matches |
| `Router.LoginPage` | main.ts:135-138 | the login page is a 401 `text/html; charset=UTF-8` response carrying the given error message |
| `Router.ShowsError` | main.ts:54-56 | the login page carries an error paragraph only for a non-empty message |
| `Router.LoginPageShowsErrorIff` | main.ts:54-56 | the login page shows an error if and only if its message is non-empty |
| `Router.HandleLogin` | main.ts:141-163 | login always answers 302, 401 or 500, and 500 exactly when no password is set |
| `Router.Main` | main.ts:166-208 | `main` answers only 200, 302, 401, 403, 404 or 500 itself, and forwards only with the matched prefix and the unchanged pathname |
| `Router.Serve` | main.ts:230-242 | a 204 response built by the proxy itself comes back exactly for `OPTIONS` requests (a forwarded upstream answer may still carry 204) |
| `Router.OptionsIsPreflight` | main.ts:230-240 | every `OPTIONS` request gets 204, no body and exactly the four CORS preflight headers with their values |
| `Router.NonOptionsGoesToMain` | main.ts:230-242 | every other method is answered by `main` |
| `Router.AuthDisabledServesDashboard` | main.ts:177-186 | with no password, `/` and `/index.html` serve the dashboard whatever the cookies |
| `Router.LoginWithoutPassword` | main.ts:142-144 | login without a configured password is a 500 configuration error |
| `Router.LoginSuccess` | main.ts:149-155 | the right password gives 302, `Location: /` and the session cookie, whose cookie pair then authenticates as the first match in a Cookie header |
| `Router.LoginFailure` | main.ts:156-161 | any other form gives the 401 login page with the invalid-password (or login-error) message and no `Set-Cookie` |
| `Router.LoginRedirectsIff` | main.ts:141-163 | login redirects if and only if a password is set and the submitted text equals it |
| `Router.LoginRoute` | main.ts:173-176 | a non-API `POST /login` goes to the login handler |
| `Router.DashboardGate` | main.ts:177-182 | with a password set, a non-API `/` or `/index.html` gets the dashboard if and only if authenticated, otherwise the login page without an error |
| `Router.ApiBypassesAuth` | main.ts:173-183 | for an API request, the response `main` chooses depends only on its pathname and prefix, never on cookies, form, method or password, and is never the 401 login page; the forwarding collaborator still receives the whole request |
| `Router.ApiIsForwarded` | main.ts:203-205 | an API request outside `/`, `/index.html`, `/robots.txt` and `/public/` is forwarded under its prefix |
| `Router.RobotsRoute` | main.ts:189-194 | `/robots.txt` gets 200 `text/plain` with `User-agent: *` and `Disallow: /` |
| `Router.StartsWith` | main.ts:196 | `pathname.startsWith(prefix)` |
| `Router.Includes` | main.ts:197 | `pathname.includes(t)`: `t` occurs at some position |
| `Router.IsDashboardPath` | main.ts:177 | the path is `/` or `/index.html`, as tested at main.ts:177 and 185 |
| `Router.TraversalForbidden` | main.ts:196-199 | a `/public/` path containing `..` gets 403 and never reaches static serving |
| `Router.StaticRoute` | main.ts:196-201 | a static file `.` + pathname is served if and only if the path starts with `/public/` and holds no `..` |
| `Router.NotFoundRoute` | main.ts:207 | 404 comes back if and only if the request is not an API request and matches no earlier rule |
| `Router.DashboardIff` | main.ts:177-187 | the dashboard is served if and only if the path is `/` or `/index.html` and the request is an API request, auth is disabled or it is authenticated |

## Left out

- SHA-256 and UTF-8 encoding: the foreign `crypto.subtle.digest` call and `TextEncoder` are one uninterpreted function in the configuration.
- `extractPrefixAndRest`, `handleApiRequest`, `handleDashboardPage`, `serveStaticFile`: their bodies are not part of this model. The matched prefix is an input, and their responses are opaque.
- HTTP plumbing: `serve`/`serveFile`, `Request`/`Response` objects, URL parsing and form parsing. A request is reduced to its method, pathname, Cookie header and the result of reading the form. A failure of `formData()` is an input (`FormUnreadable`).
- Default headers the runtime adds to a `Response` built from a string, such as a default `Content-Type`. Only headers the source writes are modelled.
- The login page's HTML and CSS. Only its status, content type and error message are modelled.
- Startup: environment reading, the `PROXY_DOMAIN` check, and the banners and warnings.
- Request logging with `performance.now()` timing (floating point, side effects) and the top-level catch-all 500 for exceptions.
- Async/await: every operation is modelled as a pure function.
