/** The axios instance's interceptors: every request carries the stored token, and a 401
    reply ends the session. */
module ApiClient {
  import opened Common
  import opened Store
  import opened BrowserStorage
  import opened MovieRoutes

  /** The `Authorization` value for a token. */
  function BearerHeader(token: string): string
  {
    "Bearer " + token
  }

  /** The header the request interceptor adds for the stored keys, if any. */
  function AuthorizationFor(items: map<string, string>): Option<string>
  {
    var token := Stored(items, "token");
    if token.Some? then Some(BearerHeader(token.value)) else None
  }

  /** The server's `substring(7)` recovers exactly the token from the header. */
  lemma BearerRoundTrip(token: string)
    ensures Substring7(BearerHeader(token)) == token
  {
    assert BearerHeader(token)[7..] == token;
  }

  /** The movie listing verifies exactly the token the client stored. */
  lemma ListingSeesStoredToken(items: map<string, string>, verify: string -> Option<UserId>)
    ensures AuthorizationFor(items).Some? ==>
      HeaderUser(AuthorizationFor(items), verify) == verify(Stored(items, "token").value)
    ensures AuthorizationFor(items).None? ==> HeaderUser(AuthorizationFor(items), verify).None?
  {
    if AuthorizationFor(items).Some? {
      BearerRoundTrip(Stored(items, "token").value);
    }
  }

  /** After a sign-in with a non-empty token requests carry it; after a sign-out or a 401
      they carry no Authorization header. */
  lemma SessionAuthorization(items: map<string, string>, token: string, userJson: string)
    ensures token != [] ==> AuthorizationFor(SaveSession(items, token, userJson)) == Some(BearerHeader(token))
    ensures AuthorizationFor(ClearSession(items)).None?
  {
  }

  class RequestConfig {
    var headers: map<string, string>

    constructor (headers: map<string, string>)
      ensures this.headers == headers
    {
      this.headers := headers;
    }
  }

  /** The request interceptor: with a stored token the request gets its Bearer header;
      otherwise its headers are left as they are. */
  method InterceptRequest(config: RequestConfig, storage: LocalStorage)
    modifies config
    ensures AuthorizationFor(storage.items).Some? ==>
      config.headers == old(config.headers)["Authorization" := AuthorizationFor(storage.items).value]
    ensures AuthorizationFor(storage.items).None? ==> config.headers == old(config.headers)
  {
    var token := Stored(storage.items, "token");
    if token.Some? {
      config.headers := config.headers["Authorization" := BearerHeader(token.value)];
    }
  }

  /** The error branch of the response interceptor. `status` is the reply's status (None
      when there was no reply). A 401 removes both session keys and sends the browser to
      /login; every error is rejected again. */
  method InterceptError(storage: LocalStorage, status: Option<int>) returns (rejected: bool, redirect: Option<string>)
    modifies storage
    ensures rejected
    ensures status == Some(401) ==> storage.items == ClearSession(old(storage.items)) && redirect == Some("/login")
    ensures status != Some(401) ==> storage.items == old(storage.items) && redirect.None?
  {
    redirect := None;
    if status == Some(401) {
      storage.RemoveItem("token");
      storage.RemoveItem("user");
      redirect := Some("/login");
    }
    rejected := true;
  }
}
