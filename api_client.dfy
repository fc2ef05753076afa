/** The front end's HTTP client: the request interceptor that adds the stored bearer token, and
    `handleApiError`, which turns a failed request into a message and a status for the pages. */
module ApiClient {
  import opened Base

  // ----- the request interceptor -----

  const AuthorizationHeader: string := "Authorization"

  /** `localStorage.getItem('authToken')`: null when absent; the empty string is falsy too. */
  predicate HasToken(token: Option<string>) {
    token.Some? && token.value != ""
  }

  /** The headers after the interceptor: the bearer header set when a token is stored, every
      other header as it was. */
  function WithAuth(headers: map<string, string>, token: Option<string>): (r: map<string, string>)
    ensures HasToken(token) ==> AuthorizationHeader in r && r[AuthorizationHeader] == "Bearer " + token.value
    ensures !HasToken(token) ==> r == headers
    ensures forall h :: h != AuthorizationHeader ==> (h in r <==> h in headers)
    ensures forall h :: h != AuthorizationHeader && h in headers ==> r[h] == headers[h]
  {
    if HasToken(token) then headers[AuthorizationHeader := "Bearer " + token.value] else headers
  }

  /** A configuration that passes the interceptor twice carries the later stored token when
      there is one; when the token was removed in between, the earlier bearer header stays. */
  lemma LatestTokenWins(headers: map<string, string>, first: Option<string>, second: Option<string>)
    ensures HasToken(second) ==> WithAuth(WithAuth(headers, first), second) == WithAuth(headers, second)
    ensures !HasToken(second) && HasToken(first) ==>
      WithAuth(WithAuth(headers, first), second)[AuthorizationHeader] == "Bearer " + first.value
  {
    if HasToken(second) {
      var once := WithAuth(headers, second);
      var twice := WithAuth(WithAuth(headers, first), second);
      assert twice.Keys == once.Keys;
    }
  }

  /** The header is present afterwards exactly when a token is stored or it was already set. */
  lemma WithAuthPresence(headers: map<string, string>, token: Option<string>)
    ensures AuthorizationHeader in WithAuth(headers, token) <==> HasToken(token) || AuthorizationHeader in headers
    ensures |WithAuth(headers, token).Keys| == |headers.Keys| + if HasToken(token) && AuthorizationHeader !in headers then 1 else 0
  {
    if HasToken(token) && AuthorizationHeader !in headers {
      assert WithAuth(headers, token).Keys == headers.Keys + {AuthorizationHeader};
    } else if HasToken(token) {
      assert WithAuth(headers, token).Keys == headers.Keys;
    }
  }

  /** The request configuration the interceptor receives and hands back. */
  class RequestConfig {
    var headers: map<string, string>

    /** The `api` instance's default header. */
    constructor ()
      ensures headers == map["Content-Type" := "application/json"]
    {
      headers := map["Content-Type" := "application/json"];
    }

    /** The interceptor: `config.headers.Authorization` is written in place when a token is
        stored. */
    method Intercept(token: Option<string>)
      modifies this
      ensures headers == WithAuth(old(headers), token)
    {
      if token.Some? && token.value != "" {
        headers := headers[AuthorizationHeader := "Bearer " + token.value];
      }
    }
  }

  // ----- handleApiError -----

  /** The parts of an axios error that `handleApiError` looks at: the response (its status and
      `data.message`, None when absent), whether a request was sent, and `error.message`. */
  datatype HttpResponse = HttpResponse(status: int, dataMessage: Option<string>)
  datatype ApiError = ApiError(response: Option<HttpResponse>, requestSent: bool, message: Option<string>)

  datatype ErrorInfo = ErrorInfo(message: string, status: int)

  const ResponseDefault: string := "An error occurred"
  const NetworkMessage: string := "Network error. Please check your connection."
  const UnexpectedDefault: string := "An unexpected error occurred"
  const NetworkStatus: int := 0
  const OtherStatus: int := -1

  /** JavaScript `a || b` on an optional string. */
  function OrElse(a: Option<string>, b: string): (r: string)
    ensures a.Some? && a.value != "" ==> r == a.value
    ensures a.None? || a.value == "" ==> r == b
  {
    if a.Some? && a.value != "" then a.value else b
  }

  function HandleApiError(e: ApiError): (r: ErrorInfo)
    ensures r.message != ""
    ensures e.response.Some? ==> r.status == e.response.value.status && r.message == OrElse(e.response.value.dataMessage, ResponseDefault)
    ensures e.response.None? && e.requestSent ==> r == ErrorInfo(NetworkMessage, NetworkStatus)
    ensures e.response.None? && !e.requestSent ==> r == ErrorInfo(OrElse(e.message, UnexpectedDefault), OtherStatus)
  {
    if e.response.Some? then ErrorInfo(OrElse(e.response.value.dataMessage, ResponseDefault), e.response.value.status)
    else if e.requestSent then ErrorInfo(NetworkMessage, NetworkStatus)
    else ErrorInfo(OrElse(e.message, UnexpectedDefault), OtherStatus)
  }

  /** A server always answers with an HTTP status code from 100 up. */
  predicate HttpStatus(e: ApiError) {
    e.response.Some? ==> e.response.value.status >= 100
  }

  /** The status returned tells the three kinds of failure apart: a server answer (its HTTP
      code), no answer (0), or a request that was never sent (-1). */
  lemma StatusClassifies(e: ApiError)
    requires HttpStatus(e)
    ensures HandleApiError(e).status >= 100 <==> e.response.Some?
    ensures HandleApiError(e).status == NetworkStatus <==> e.response.None? && e.requestSent
    ensures HandleApiError(e).status == OtherStatus <==> e.response.None? && !e.requestSent
  {
  }
}
