/**
 * The browser's HTTP client: every outgoing request passes an interceptor that adds the
 * stored token as a bearer credential (section 2.1 of RFC 6750).
 */
module ApiClient {
  import opened Wrappers
  import UserService

  /** The parts of an outgoing request the interceptor can see. */
  datatype Config = Config(url: string, verb: string, headers: map<string, string>)

  const AuthorizationHeader: string := "Authorization"

  /** The stored token, as `localStorage.getItem` returns it: absent, or a string that may be empty. */
  predicate TokenTruthy(token: Option<string>) {
    token.Some? && token.value != ""
  }

  /** The request interceptor: with a truthy token, set `Authorization: Bearer <token>`; otherwise pass the request on untouched. */
  function Intercept(c: Config, token: Option<string>): (r: Config)
    ensures r.url == c.url && r.verb == c.verb
    ensures TokenTruthy(token) ==> AuthorizationHeader in r.headers && r.headers[AuthorizationHeader] == UserService.BearerPrefix + token.value
    ensures !TokenTruthy(token) ==> r == c
    ensures r.headers.Keys == c.headers.Keys + (if TokenTruthy(token) then {AuthorizationHeader} else {})
    ensures forall k :: k in c.headers && k != AuthorizationHeader ==> r.headers[k] == c.headers[k]
  {
    if TokenTruthy(token) then c.(headers := c.headers[AuthorizationHeader := UserService.BearerPrefix + token.value])
    else c
  }

  /** The header the user service reads from a request. */
  function AuthorizationOf(c: Config): Option<string> {
    if AuthorizationHeader in c.headers then Some(c.headers[AuthorizationHeader]) else None
  }

  /**
   * Client and server agree on the credential: a request sent with a stored token reaches
   * the user service's verification with exactly that token, and one sent without a token
   * and without a header of its own is refused as carrying none.
   */
  lemma InterceptorMeetsMiddleware(c: Config, token: Option<string>, verify: string -> Option<int>)
    ensures TokenTruthy(token) ==>
              UserService.Authenticate(AuthorizationOf(Intercept(c, token)), verify) ==
                (if verify(token.value).Some? then UserService.Authenticated(verify(token.value).value)
                 else UserService.Rejected(401, "Invalid token"))
    ensures !TokenTruthy(token) && AuthorizationHeader !in c.headers ==>
              UserService.Authenticate(AuthorizationOf(Intercept(c, token)), verify) == UserService.Rejected(401, "No token provided")
  {
    if TokenTruthy(token) {
      UserService.BearerRoundTrip(token.value, verify);
    }
  }
}
