/**
 * `HttpService`: GET and authenticated form POST against the configured base URL.
 * The network is an oracle `transport` from a request to either a response or a
 * failure (an IOException or InterruptedException of `HttpClient.send`). A ghost
 * log `sent` records every request handed to the transport, in order.
 */
module Http {
  import opened Wrappers
  import opened Text
  import opened UrlEncoding
  import opened Params
  import opened Forms

  /** The values read from `config.properties`: `http.url`, `http.user`, `http.password`. */
  datatype Config = Config(url: string, user: string, password: string)

  datatype Header = Header(name: string, value: string)

  datatype Verb = Get | Post(body: string)

  datatype Request = Request(verb: Verb, uri: string, headers: seq<Header>)

  datatype Response = Response(status: int, body: string)

  /** What `httpClient.send` does: return a response, or throw with some cause. */
  datatype Delivery = Delivered(response: Response) | Failed(cause: string)

  type Transport = Request -> Delivery

  /** `CustomException(message)` or `CustomException(message, cause)`. */
  datatype CustomException = CustomException(message: string, cause: Option<string>)

  const SECRET_KEY := "secretKey"
  const FORM_CONTENT_TYPE := "application/x-www-form-urlencoded"
  const AUTH_HEADER_VALUE := "Basic Og=="

  /** The request `sendGet` builds: GET of the URI with `User-Agent: Test`. */
  function GetRequest(uri: string): Request
  {
    Request(Get, uri, [Header("User-Agent", "Test")])
  }

  /** The request the private `sendPostRequest` builds: the body, its fixed User-Agent, then the extra header. */
  function PostRequest(uri: string, body: string, headerName: string, headerValue: string): Request
  {
    Request(Post(body), uri, [Header("User-Agent", "Java 11 HttpClient"), Header(headerName, headerValue)])
  }

  /**
   * The try/catch around `httpClient.send`: a response is returned as it came; a
   * failure becomes a CustomException naming the target URI and keeping the cause.
   */
  function WrapTransport(d: Delivery, verb: string, uri: string): (r: Result<Response, CustomException>)
    ensures r.Ok? <==> d.Delivered?
    ensures d.Delivered? ==> r.value == d.response
    ensures d.Failed? ==> EndsWith(r.error.message, uri) && r.error.cause == Some(d.cause)
  {
    match d
    case Delivered(response) => Ok(response)
    case Failed(cause) => Err(CustomException("Fail to send " + verb + " request to +" + uri, Some(cause)))
  }

  /**
   * body is what `dataToBodyPublisher` writes for m under some iteration order:
   * the form body of a listing of m's entries with distinct keys.
   */
  ghost predicate IsFormBodyOf(body: string, m: map<string, Value>)
  {
    exists es :: DistinctKeys(es) && ToMap(es) == m && body == FormBody(es)
  }

  /**
   * The credential request `getSecretKey` sends: a POST to base URL + "auth" with
   * `Authorization: Basic Og==` whose body is the form body of exactly `username`
   * and `password` with the configured values, in whichever order the map iterates.
   */
  ghost predicate IsAuthRequest(config: Config, req: Request)
  {
    && req.verb.Post?
    && req.uri == config.url + "auth"
    && req.headers == [Header("User-Agent", "Java 11 HttpClient"), Header("Authorization", AUTH_HEADER_VALUE)]
    && IsFormBodyOf(req.verb.body, map["username" := Str(config.user), "password" := Str(config.password)])
    && Encodes(req.verb.body, map["username" := Str(config.user), "password" := Str(config.password)])
  }

  /** A form POST to uri carrying `Content-Type: application/x-www-form-urlencoded` and the form body of m. */
  ghost predicate IsFormPost(req: Request, uri: string, m: map<string, Value>)
  {
    && req.verb.Post?
    && req.uri == uri
    && req.headers == [Header("User-Agent", "Java 11 HttpClient"), Header("Content-Type", FORM_CONTENT_TYPE)]
    && IsFormBodyOf(req.verb.body, m)
    && Encodes(req.verb.body, m)
  }

  /** The auth response turned into the secret key: its body verbatim, whatever its status. */
  function SecretKeyOf(res: Result<Response, CustomException>): (r: Result<string, CustomException>)
    ensures r.Ok? <==> res.Ok?
    ensures res.Ok? ==> r.value == res.value.body
    ensures res.Err? ==> r.error == res.error
  {
    match res
    case Ok(response) => Ok(response.body)
    case Err(e) => Err(e)
  }

  /** A key whose characters are all unreserved sits in the body as key "=" encode(value). */
  lemma PlainKeyInBody(es: seq<(string, Value)>, name: string, value: string)
    requires DistinctKeys(es) && name in ToMap(es) && ToMap(es)[name] == Str(value)
    requires forall i :: 0 <= i < |name| ==> IsUnreserved(name[i])
    ensures exists k ::
              && 0 <= k < |Split(FormBody(es), '&')|
              && Split(FormBody(es), '&')[k] == name + "=" + Encode(value)
  {
    var k := PairOfKey(es, name);
    EncodeUnreserved(name);
  }

  /** A form POST of a map holding secretKey = s carries the pair "secretKey=" + encode(s). */
  lemma SecretKeyInPost(req: Request, uri: string, m: map<string, Value>, s: string)
    requires IsFormPost(req, uri, m) && SECRET_KEY in m && m[SECRET_KEY] == Str(s)
    ensures exists k ::
              && 0 <= k < |Split(req.verb.body, '&')|
              && Split(req.verb.body, '&')[k] == SECRET_KEY + "=" + Encode(s)
  {
    var es :| DistinctKeys(es) && ToMap(es) == m && req.verb.body == FormBody(es);
    SecretKeyIsUnreserved();
    PlainKeyInBody(es, SECRET_KEY, s);
  }

  lemma SecretKeyIsUnreserved()
    ensures forall i :: 0 <= i < |SECRET_KEY| ==> IsUnreserved(SECRET_KEY[i])
  {
  }

  class HttpService {
    const config: Config
    const transport: Transport
    ghost var sent: seq<Request>

    /** The configuration is supplied here instead of being loaded from `config.properties`. */
    constructor (config: Config, transport: Transport)
      ensures this.config == config && this.transport == transport && sent == []
    {
      this.config := config;
      this.transport := transport;
      sent := [];
    }

    /** `sendGet(urlPart)`: GET base URL + urlPart. */
    method SendGet(urlPart: string) returns (r: Result<Response, CustomException>)
      modifies this
      ensures sent == old(sent) + [GetRequest(config.url + urlPart)]
      ensures r == WrapTransport(transport(GetRequest(config.url + urlPart)), "GET", config.url + urlPart)
    {
      var uri := config.url + urlPart;
      var request := GetRequest(uri);
      sent := sent + [request];
      r := WrapTransport(transport(request), "GET", uri);
    }

    /** The private `sendPostRequest(urlPart, params, headerName, headerValue)`. */
    method SendPostWithHeader(urlPart: string, params: ParamMap, headerName: string, headerValue: string)
      returns (r: Result<Response, CustomException>)
      modifies this
      ensures sent == old(sent) + [PostRequest(config.url + urlPart, FormBody(params.entries), headerName, headerValue)]
      ensures r == WrapTransport(transport(sent[|sent| - 1]), "POST", config.url + urlPart)
    {
      var uri := config.url + urlPart;
      var body := DataToBodyPublisher(params);
      var request := PostRequest(uri, body, headerName, headerValue);
      sent := sent + [request];
      r := WrapTransport(transport(request), "POST", uri);
    }

    /** `getSecretKey()`: posts the credentials to "auth" and takes the response body as the key. */
    method GetSecretKey() returns (r: Result<string, CustomException>)
      modifies this
      ensures |sent| == |old(sent)| + 1 && sent == old(sent) + [sent[|old(sent)|]]
      ensures IsAuthRequest(config, sent[|sent| - 1])
      ensures r == SecretKeyOf(WrapTransport(transport(sent[|sent| - 1]), "POST", config.url + "auth"))
    {
      var data := new ParamMap();
      data.Put("username", Str(config.user));
      data.Put("password", Str(config.password));
      FormBodyEncodes(data.entries);
      ghost var m := map["username" := Str(config.user), "password" := Str(config.password)];
      assert DistinctKeys(data.entries) && ToMap(data.entries) == m;
      assert IsFormBodyOf(FormBody(data.entries), m);
      var response := SendPostWithHeader("auth", data, "Authorization", AUTH_HEADER_VALUE);
      r := SecretKeyOf(response);
    }

    /**
     * The public `sendPostRequest(urlPart, params)`: fetches a fresh secret key, puts
     * it into the caller's map under "secretKey" (replacing any earlier one, leaving
     * every other entry alone), then posts the form encoding of the updated map.
     * When the key cannot be fetched the map is untouched and nothing else is sent.
     */
    method SendPostRequest(urlPart: string, params: ParamMap) returns (r: Result<Response, CustomException>)
      requires params.Valid()
      modifies this, params
      ensures params.Valid()
      ensures |sent| > |old(sent)| && sent[..|old(sent)|] == old(sent)
      ensures IsAuthRequest(config, sent[|old(sent)|])
      ensures var key := SecretKeyOf(WrapTransport(transport(sent[|old(sent)|]), "POST", config.url + "auth"));
        if key.Err? then
          && sent == old(sent) + [sent[|old(sent)|]]
          && params.entries == old(params.entries)
          && r == Err(key.error)
        else
          && params.AsMap() == old(params.AsMap())[SECRET_KEY := Str(key.value)]
          && sent == old(sent) + [sent[|old(sent)|],
                                  PostRequest(config.url + urlPart, FormBody(params.entries), "Content-Type", FORM_CONTENT_TYPE)]
          && r == WrapTransport(transport(sent[|sent| - 1]), "POST", config.url + urlPart)
    {
      ghost var before := sent;
      var key := GetSecretKey();
      ghost var auth := sent[|before|];
      assert sent == before + [auth];
      match key
      case Err(e) =>
        r := Err(e);
      case Ok(secret) =>
        params.Put(SECRET_KEY, Str(secret));
        r := SendPostWithHeader(urlPart, params, "Content-Type", FORM_CONTENT_TYPE);
        assert sent[|before|] == auth;
    }
  }
}
