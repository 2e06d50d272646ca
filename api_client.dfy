/** The HTTP client instance of src/lib/axios.ts: its defaults and the request
    interceptor that attaches the stored token as a bearer credential. */
module ApiClient {
  import opened Common
  import Auth

  const DefaultBaseUrl: string := "https://test-fe.mysellerpintar.com/api"
  const ContentTypeHeader: string := "Content-Type"
  const JsonContentType: string := "application/json"
  const AuthorizationHeader: string := "Authorization"
  const BearerPrefix: string := "Bearer "

  /** The defaults given to `axios.create`. */
  datatype ClientDefaults = ClientDefaults(baseUrl: string, headers: map<string, string>)

  /** `axios.create({...})`, given the value of `NEXT_PUBLIC_API_BASE_URL`
      (absent when the variable is not set): an unset or empty variable falls
      back to the fixed default, and every request is JSON by default. */
  function CreateClient(env: Option<string>): (c: ClientDefaults)
    ensures env.Some? && env.value != "" ==> c.baseUrl == env.value
    ensures env.None? || env.value == "" ==> c.baseUrl == DefaultBaseUrl
    ensures c.baseUrl != ""
    ensures c.headers.Keys == {ContentTypeHeader}
    ensures c.headers[ContentTypeHeader] == JsonContentType
  {
    ClientDefaults(OrElse(env, DefaultBaseUrl), map[ContentTypeHeader := JsonContentType])
  }

  /** The interceptor attaches a credential only in a browser and only when
      the stored token is truthy (present and non-empty). */
  predicate AttachesToken(inBrowser: bool, token: Option<string>) {
    inBrowser && token.Some? && Truthy(token.value)
  }

  /** `Bearer ${token}`. */
  function BearerValue(token: string): (v: string)
    ensures BearerPrefix <= v && v[|BearerPrefix|..] == token
  {
    BearerPrefix + token
  }

  /** The headers after the interceptor: the `Authorization` header set to the
      bearer value when a token is attached, every other header kept as it was. */
  function WithAuthorization(headers: map<string, string>, inBrowser: bool, token: Option<string>)
    : (r: map<string, string>)
    ensures AttachesToken(inBrowser, token) ==>
      AuthorizationHeader in r && r[AuthorizationHeader] == BearerValue(token.value)
    ensures !AttachesToken(inBrowser, token) ==> r == headers
    ensures r.Keys - {AuthorizationHeader} == headers.Keys - {AuthorizationHeader}
    ensures forall k :: k in headers && k != AuthorizationHeader ==> k in r && r[k] == headers[k]
  {
    if AttachesToken(inBrowser, token) then headers[AuthorizationHeader := BearerValue(token.value)]
    else headers
  }

  /** The part of a request configuration the interceptor touches. */
  class RequestConfig {
    var url: string
    var headers: map<string, string>

    constructor (url: string, headers: map<string, string>)
      ensures this.url == url && this.headers == headers
    {
      this.url := url;
      this.headers := headers;
    }
  }

  /** The request interceptor: reads the token from the session store when
      running in a browser, sets the header in place and returns the same
      configuration object. */
  method Intercept(config: RequestConfig, inBrowser: bool, store: Auth.SessionStore)
    returns (result: RequestConfig)
    modifies config
    ensures result == config
    ensures config.headers == WithAuthorization(old(config.headers), inBrowser, Auth.Lookup(store.items, Auth.TokenKey))
    ensures config.url == old(config.url)
  {
    if inBrowser {
      var token := store.GetToken();
      if token.Some? && Truthy(token.value) {
        var headers := config.headers;
        headers := headers[AuthorizationHeader := BearerValue(token.value)];
        config.headers := headers;
      }
    }
    result := config;
  }
}
