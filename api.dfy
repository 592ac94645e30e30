/**
 * The NeuVector scanner REST client: the diagnostic text built from a failed call,
 * the JSON bodies and headers of its requests, the authentication token it keeps,
 * and how the availability probe reads a failed response. The HTTP transport is an
 * oracle: every call is given the reply the service sent.
 */
module NeuVectorApi {
  import opened Wrappers
  import opened JsText

  // ----- Errors raised by the HTTP client

  /** The parsed JSON body of a failed response (`response.error`). */
  datatype ErrorBody = ErrorBody(code: Field, error: Field, message: Field)

  /**
   * What the HTTP client throws for a non-2xx reply: the status (absent for a
   * transport failure) and the body (`None` when it is missing or empty).
   */
  datatype ApiError = ApiError(statusCode: Option<int>, body: Option<ErrorBody>)

  const ErrorPrefix := "NeuVector Scanner API Error"

  /** `${response.statusCode}` */
  function RenderStatus(status: Option<int>): string
  {
    match status
    case None => "undefined"
    case Some(n) => IntToString(n)
  }

  /** The text appended for an optional part: the separator and the value, when the value is truthy. */
  function OptionalPart(separator: string, f: Field): (r: string)
    ensures Truthy(f) ==> r == separator + Render(f)
    ensures !Truthy(f) ==> r == ""
  {
    if Truthy(f) then separator + Render(f) else ""
  }

  /** What follows the prefix: the parts of the body, or the HTTP status when there is no body. */
  function ErrorDetail(e: ApiError): string
  {
    match e.body
    case None => " with HTTP status " + RenderStatus(e.statusCode)
    case Some(b) => OptionalPart(" ", b.code) + OptionalPart(" ", b.error) + OptionalPart(": ", b.message)
  }

  lemma PrefixOfConcat(a: string, b: string)
    ensures |a + b| >= |a| && (a + b)[..|a|] == a
  {
  }

  /**
   * `formatNeuVectorApiError`: the fixed prefix, then either the code, error and message
   * of the body, each only when present, or, without a body, the HTTP status.
   */
  function FormatApiError(e: ApiError): (r: string)
    ensures |r| >= |ErrorPrefix| && r[..|ErrorPrefix|] == ErrorPrefix
    ensures e.body.None? ==> r == ErrorPrefix + (" with HTTP status " + RenderStatus(e.statusCode))
    ensures e.body.Some? ==>
              r == ErrorPrefix + (OptionalPart(" ", e.body.value.code)
                   + OptionalPart(" ", e.body.value.error) + OptionalPart(": ", e.body.value.message))
  {
    var detail := ErrorDetail(e);
    PrefixOfConcat(ErrorPrefix, detail);
    ErrorPrefix + detail
  }

  /** Without a body, the diagnostic names the HTTP status and nothing else. */
  lemma FormatWithoutBody(status: int)
    ensures FormatApiError(ApiError(Some(status), None))
            == "NeuVector Scanner API Error with HTTP status " + IntToString(status)
  {
  }

  /** With a body whose parts are all falsy, the diagnostic is the bare prefix. */
  lemma FormatEmptyBody(status: Option<int>, b: ErrorBody)
    requires !Truthy(b.code) && !Truthy(b.error) && !Truthy(b.message)
    ensures FormatApiError(ApiError(status, Some(b))) == ErrorPrefix
  {
  }

  /** `response.error.error`: the message a failed call passes to `setResult`. */
  function FailureMessage(e: ApiError): (m: Field)
    ensures e.body.None? ==> m == Absent
    ensures e.body.Some? ==> m == e.body.value.error
  {
    if e.body.Some? then e.body.value.error else Absent
  }

  // ----- Request bodies

  /** A JSON value as the request bodies use it; objects keep their member order. */
  datatype Json = JString(s: string) | JBool(b: bool) | JObject(members: seq<(string, Json)>)

  /** The member names of an object, in order; no names for other values. */
  function Keys(j: Json): (ks: seq<string>)
    ensures j.JObject? ==> |ks| == |j.members|
  {
    match j
    case JObject(ms) => seq(|ms|, i requires 0 <= i < |ms| => ms[i].0)
    case _ => []
  }

  /** The value of the first member called `key`. */
  function Lookup(ms: seq<(string, Json)>, key: string): (r: Option<Json>)
    ensures r.Some? ==> exists i :: 0 <= i < |ms| && ms[i] == (key, r.value)
    ensures r.None? ==> forall i :: 0 <= i < |ms| ==> ms[i].0 != key
    decreases |ms|
  {
    if ms == [] then None
    else if ms[0].0 == key then Some(ms[0].1)
    else
      var r := Lookup(ms[1..], key);
      assert r.Some? ==> exists i :: 0 <= i < |ms[1..]| && ms[1..][i] == (key, r.value);
      assert r.None? ==> forall i :: 1 <= i < |ms| ==> ms[1..][i - 1] == ms[i];
      r
  }

  /** Member names that occur once each. */
  predicate DistinctKeys(ms: seq<(string, Json)>)
  {
    forall a, b :: 0 <= a < b < |ms| ==> ms[a].0 != ms[b].0
  }

  /** In an object whose member names are distinct, looking up a member's name finds that member. */
  lemma {:induction false} LookupDistinct(ms: seq<(string, Json)>, i: nat)
    requires DistinctKeys(ms) && i < |ms|
    ensures Lookup(ms, ms[i].0) == Some(ms[i].1)
    decreases i
  {
    if i > 0 {
      assert ms[1..][i - 1] == ms[i];
      LookupDistinct(ms[1..], i - 1);
    }
  }

  /** The member `key` of `j`, if `j` is an object that has one. */
  function Get(j: Json, key: string): Option<Json>
  {
    match j
    case JObject(ms) => Lookup(ms, key)
    case _ => None
  }

  /** The member `key` of the member `outer` of `j`. */
  function Get2(j: Json, outer: string, key: string): Option<Json>
  {
    match Get(j, outer)
    case Some(inner) => Get(inner, key)
    case None => None
  }

  /** `{"password": {"username": …, "password": …}}` */
  function AuthBody(username: string, password: string): Json
  {
    JObject([("password", JObject([("username", JString(username)), ("password", JString(password))]))])
  }

  /** The body of `scanRepository`: the registry, its credentials, the image and the layer flag. */
  function ScanRepositoryBody(registry: string, username: string, password: string,
                              repository: string, tag: string, scanLayers: bool): Json
  {
    JObject([("request", JObject([
      ("registry", JString(registry)), ("username", JString(username)), ("password", JString(password)),
      ("repository", JString(repository)), ("tag", JString(tag)), ("scan_layers", JBool(scanLayers))]))])
  }

  /** The body of `scanLocalRepository`: the image and the layer flag, with no registry fields. */
  function ScanLocalRepositoryBody(repository: string, tag: string, scanLayers: bool): Json
  {
    JObject([("request", JObject([
      ("repository", JString(repository)), ("tag", JString(tag)), ("scan_layers", JBool(scanLayers))]))])
  }

  /** Looking up each field of the authentication body gives back the credentials. */
  lemma AuthBodyFields(username: string, password: string)
    ensures Keys(AuthBody(username, password)) == ["password"]
    ensures Get2(AuthBody(username, password), "password", "username") == Some(JString(username))
    ensures Get2(AuthBody(username, password), "password", "password") == Some(JString(password))
  {
    var ms := AuthBody(username, password).members[0].1.members;
    assert DistinctKeys(ms);
    LookupDistinct(ms, 0); LookupDistinct(ms, 1);
  }

  /** The members of the registry scan request, in order. */
  lemma ScanRepositoryMembers(registry: string, username: string, password: string,
                              repository: string, tag: string, scanLayers: bool)
    ensures var b := ScanRepositoryBody(registry, username, password, repository, tag, scanLayers);
            Keys(b) == ["request"]
            && Get(b, "request").Some?
            && Keys(Get(b, "request").value) == ["registry", "username", "password", "repository", "tag", "scan_layers"]
  {
    var b := ScanRepositoryBody(registry, username, password, repository, tag, scanLayers);
    var ms := b.members[0].1.members;
    assert Get(b, "request") == Some(JObject(ms));
    var names := ["registry", "username", "password", "repository", "tag", "scan_layers"];
    assert forall i :: 0 <= i < 6 ==> ms[i].0 == names[i];
    assert Keys(JObject(ms)) == names;
  }

  /** Looking up each field of the registry scan body gives back the arguments. */
  lemma ScanRepositoryBodyFields(registry: string, username: string, password: string,
                                 repository: string, tag: string, scanLayers: bool)
    ensures var b := ScanRepositoryBody(registry, username, password, repository, tag, scanLayers);
            Get2(b, "request", "registry") == Some(JString(registry))
            && Get2(b, "request", "username") == Some(JString(username))
            && Get2(b, "request", "password") == Some(JString(password))
            && Get2(b, "request", "repository") == Some(JString(repository))
            && Get2(b, "request", "tag") == Some(JString(tag))
            && Get2(b, "request", "scan_layers") == Some(JBool(scanLayers))
  {
    var b := ScanRepositoryBody(registry, username, password, repository, tag, scanLayers);
    var ms := b.members[0].1.members;
    assert Get(b, "request") == Some(JObject(ms));
    assert DistinctKeys(ms);
    LookupDistinct(ms, 0); LookupDistinct(ms, 1); LookupDistinct(ms, 2);
    LookupDistinct(ms, 3); LookupDistinct(ms, 4); LookupDistinct(ms, 5);
  }

  /**
   * The local scan body is the registry scan body without its registry, username and
   * password members: the same image fields, in the same order, and no registry fields.
   */
  lemma LocalBodyOmitsRegistry(registry: string, username: string, password: string,
                               repository: string, tag: string, scanLayers: bool)
    ensures var full := ScanRepositoryBody(registry, username, password, repository, tag, scanLayers).members[0].1;
            var local := ScanLocalRepositoryBody(repository, tag, scanLayers).members[0].1;
            local.members == full.members[3..]
    ensures var b := ScanLocalRepositoryBody(repository, tag, scanLayers);
            Get2(b, "request", "registry") == None && Get2(b, "request", "username") == None
            && Get2(b, "request", "password") == None
            && Get2(b, "request", "repository") == Some(JString(repository))
            && Get2(b, "request", "tag") == Some(JString(tag))
            && Get2(b, "request", "scan_layers") == Some(JBool(scanLayers))
  {
    var ms := ScanLocalRepositoryBody(repository, tag, scanLayers).members[0].1.members;
    assert DistinctKeys(ms);
    LookupDistinct(ms, 0); LookupDistinct(ms, 1); LookupDistinct(ms, 2);
  }

  // ----- Requests

  datatype Verb = GET | POST | DELETE

  /** One HTTP request as the client issues it. */
  datatype HttpRequest = HttpRequest(verb: Verb, baseUrl: string, uri: string, body: Option<Json>,
                                     headers: map<string, string>, strictSsl: bool)

  const AuthEndpoint := "/v1/auth"
  const ScanRepositoryEndpoint := "/v1/scan/repository"
  const AuthTokenHeader := "X-Auth-Token"

  /** The body of a successful authentication: `body.token.token`. */
  datatype AuthReply = AuthReply(token: string)

  /** The scanner API client of one task run, holding the session token. */
  class ApiClient {
    const url: string
    const strictSsl: bool
    var token: string

    constructor (url: string, strictSsl: bool)
      ensures this.url == url && this.strictSsl == strictSsl && token == ""
    {
      this.url := url;
      this.strictSsl := strictSsl;
      token := "";
    }

    /** `getHeaders`: the session token under `X-Auth-Token`, and no other header. */
    function Headers(): (h: map<string, string>)
      reads this
      ensures h.Keys == {AuthTokenHeader} && h[AuthTokenHeader] == token
    {
      map[AuthTokenHeader := token]
    }

    /** The request `isAvailable` sends: an unauthenticated GET of the auth endpoint. */
    function ProbeRequest(): (q: HttpRequest)
      reads this
      ensures q.verb == GET && q.uri == AuthEndpoint && q.body == None && q.headers == map[]
    {
      HttpRequest(GET, url, AuthEndpoint, None, map[], strictSsl)
    }

    /** The request `authenticate` sends: the credentials, POSTed without a token header. */
    function AuthRequest(username: string, password: string): (q: HttpRequest)
      reads this
      ensures q.verb == POST && q.uri == AuthEndpoint && q.headers == map[]
      ensures q.body == Some(AuthBody(username, password))
    {
      HttpRequest(POST, url, AuthEndpoint, Some(AuthBody(username, password)), map[], strictSsl)
    }

    /** The request `scanRepository` sends, carrying the session token. */
    function ScanRepositoryRequest(registry: string, username: string, password: string,
                                   repository: string, tag: string, scanLayers: bool): (q: HttpRequest)
      reads this
      ensures q.verb == POST && q.uri == ScanRepositoryEndpoint && q.headers == Headers()
      ensures q.body == Some(ScanRepositoryBody(registry, username, password, repository, tag, scanLayers))
    {
      HttpRequest(POST, url, ScanRepositoryEndpoint,
                  Some(ScanRepositoryBody(registry, username, password, repository, tag, scanLayers)),
                  Headers(), strictSsl)
    }

    /** The request `scanLocalRepository` sends, carrying the session token. */
    function ScanLocalRepositoryRequest(repository: string, tag: string, scanLayers: bool): (q: HttpRequest)
      reads this
      ensures q.verb == POST && q.uri == ScanRepositoryEndpoint && q.headers == Headers()
      ensures q.body == Some(ScanLocalRepositoryBody(repository, tag, scanLayers))
    {
      HttpRequest(POST, url, ScanRepositoryEndpoint, Some(ScanLocalRepositoryBody(repository, tag, scanLayers)),
                  Headers(), strictSsl)
    }

    /** The request `unauthenticate` sends: a DELETE of the auth endpoint with the token. */
    function UnauthenticateRequest(): (q: HttpRequest)
      reads this
      ensures q.verb == DELETE && q.uri == AuthEndpoint && q.body == None && q.headers == Headers()
    {
      HttpRequest(DELETE, url, AuthEndpoint, None, Headers(), strictSsl)
    }

    /**
     * `authenticate`: sends the credentials; on success the token of the reply becomes
     * the session token, on failure the error is raised and the token is kept.
     */
    method Authenticate(username: string, password: string, reply: Result<AuthReply, ApiError>)
      returns (sent: HttpRequest, outcome: Result<AuthReply, ApiError>)
      modifies this
      ensures sent == old(AuthRequest(username, password))
      ensures outcome == reply
      ensures token == if reply.Success? then reply.value.token else old(token)
      ensures reply.Success? ==> Headers() == map[AuthTokenHeader := reply.value.token]
    {
      sent := AuthRequest(username, password);
      outcome := reply;
      if reply.Success? {
        token := reply.value.token;
      }
    }
  }

  /** Every request that carries the token carries it under the same single header. */
  lemma AuthenticatedRequestsCarryToken(c: ApiClient, registry: string, username: string, password: string,
                                        repository: string, tag: string, scanLayers: bool)
    ensures c.ScanRepositoryRequest(registry, username, password, repository, tag, scanLayers).headers
            == c.ScanLocalRepositoryRequest(repository, tag, scanLayers).headers
            == c.UnauthenticateRequest().headers
            == map[AuthTokenHeader := c.token]
  {
  }

  // ----- Availability probe

  /** How the availability probe ended: a 2xx reply, or the error the client raised. */
  type ProbeReply = Result<(), ApiError>

  /**
   * `isAvailable`: true for a 2xx reply; for a failure, whether it is a 405 whose body
   * says "Method not allowed". `None` when a 405 arrives without a body: reading
   * `response.error.error` then throws, and the returned promise rejects.
   */
  function IsAvailable(reply: ProbeReply): (r: Option<bool>)
    ensures r == None <==> reply.Failure? && reply.error.statusCode == Some(405) && reply.error.body.None?
    ensures r == Some(true) <==>
              reply.Success?
              || (reply.error.statusCode == Some(405) && reply.error.body.Some?
                  && reply.error.body.value.error == Text("Method not allowed"))
  {
    match reply
    case Success(_) => Some(true)
    case Failure(e) =>
      if e.statusCode != Some(405) then Some(false)
      else match e.body
        case None => None
        case Some(b) => Some(b.error == Text("Method not allowed"))
  }

  /** A 500, or any failure that is not a 405, reads as "not available" rather than as an error. */
  lemma ProbeOtherFailures(e: ApiError)
    requires e.statusCode != Some(405)
    ensures IsAvailable(Failure(e)) == Some(false)
  {
  }
}
