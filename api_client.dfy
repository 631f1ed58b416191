/** The HTTP client set-up (`api.js`): the base URL computed from the
    environment, and the two interceptors that attach the bearer token to
    every request and drop the stored credentials on a 401.

    The browser enters through fields: `localStorage` is a string map, the
    client's default headers are a string map, and the page location is
    its path plus the address a redirect assigned, if any. */
module ApiClient {
  import opened Wrappers
  import opened JsText

  const ApiSuffix := "/api"
  const LocalDevUrl := "http://localhost:5000/api"

  /** The base URL as written: an environment value ending in `/api` is
      used as it is (it has no trailing slash to strip); any other
      non-empty value loses its trailing slashes and gains `/api`; without
      one, the page's origin plus `/api`, else the local development
      server. */
  function BaseUrl(env: string, origin: string): (r: string)
    ensures env != "" && EndsWith(env, ApiSuffix) ==> r == env
    ensures env != "" && !EndsWith(env, ApiSuffix) ==> r == StripTrailing(env, '/') + ApiSuffix
    ensures env == "" && origin != "" ==> r == origin + ApiSuffix
    ensures env == "" && origin == "" ==> r == LocalDevUrl
  {
    if env != "" then
      if EndsWith(env, ApiSuffix) then StripTrailing(env, '/') else StripTrailing(env, '/') + ApiSuffix
    else if origin != "" then origin + ApiSuffix
    else LocalDevUrl
  }

  /** Whatever is configured, the base URL ends in `/api`. */
  lemma BaseUrlEndsWithApi(env: string, origin: string)
    ensures EndsWith(BaseUrl(env, origin), ApiSuffix)
  {
    var r := BaseUrl(env, origin);
    if env != "" && !EndsWith(env, ApiSuffix) {
      var stripped := StripTrailing(env, '/');
      assert r[|r| - 4..] == ApiSuffix;
    } else if env == "" && origin != "" {
      assert r[|r| - 4..] == ApiSuffix;
    }
  }

  /** Configuring the computed base URL again gives the same base URL. */
  lemma BaseUrlIdempotent(env: string, origin: string, origin2: string)
    ensures BaseUrl(BaseUrl(env, origin), origin2) == BaseUrl(env, origin)
  {
    BaseUrlEndsWithApi(env, origin);
  }

  /** Trailing slashes after a root are ignored: `http://h:5000/` and
      `http://h:5000` both give `http://h:5000/api`. */
  lemma {:induction false} TrailingSlashesIgnored(root: string, slashes: nat, origin: string)
    requires root != "" && root[|root| - 1] != '/' && !EndsWith(root, ApiSuffix)
    ensures BaseUrl(root + Slashes(slashes), origin) == root + ApiSuffix
    decreases slashes
  {
    var env := root + Slashes(slashes);
    if slashes == 0 {
      assert env == root;
    } else {
      assert env[..|env| - 1] == root + Slashes(slashes - 1);
      TrailingSlashesIgnored(root, slashes - 1, origin);
      assert !EndsWith(env, ApiSuffix) by {
        if |env| >= 4 { assert env[|env| - 4..][3] == env[|env| - 1]; }
      }
    }
  }

  function Slashes(n: nat): (r: string)
    ensures |r| == n && forall i :: 0 <= i < n ==> r[i] == '/'
  {
    if n == 0 then "" else Slashes(n - 1) + "/"
  }

  /** As written, `.../api/` takes the second branch and becomes
      `.../api/api`. */
  lemma TrailingSlashAfterApi(origin: string)
    ensures BaseUrl("http://h:5000/api/", origin) == "http://h:5000/api/api"
  {
    var env := "http://h:5000/api/";
    assert !EndsWith(env, ApiSuffix) by { assert env[|env| - 4..] != ApiSuffix; }
    assert StripTrailing(env, '/') == "http://h:5000/api" by {
      assert StripTrailing(env[..|env| - 1], '/') == env[..|env| - 1];
    }
  }

  /** The base URL as evidently intended: trailing slashes are stripped
      first, and `/api` is appended only when the result lacks it. */
  function IntendedBaseUrl(env: string, origin: string): (r: string)
    ensures env != "" ==> r == StripTrailing(env, '/') || r == StripTrailing(env, '/') + ApiSuffix
  {
    if env != "" then
      var stripped := StripTrailing(env, '/');
      if EndsWith(stripped, ApiSuffix) then stripped else stripped + ApiSuffix
    else if origin != "" then origin + ApiSuffix
    else LocalDevUrl
  }

  /** The intended base URL does not depend on trailing slashes. */
  lemma IntendedIgnoresTrailingSlash(env: string, origin: string)
    requires env != ""
    ensures IntendedBaseUrl(env + "/", origin) == IntendedBaseUrl(env, origin)
  {
    assert (env + "/")[..|env|] == env;
  }

  /** On every value without a trailing slash the intended base URL is the
      written one. */
  lemma IntendedAgreesWithoutSlash(env: string, origin: string)
    requires env == "" || env[|env| - 1] != '/'
    ensures IntendedBaseUrl(env, origin) == BaseUrl(env, origin)
  {
  }

  /** The intended base URL ends in `/api` and is its own normal form. */
  lemma IntendedBaseUrlStable(env: string, origin: string)
    ensures EndsWith(IntendedBaseUrl(env, origin), ApiSuffix)
    ensures IntendedBaseUrl(IntendedBaseUrl(env, origin), origin) == IntendedBaseUrl(env, origin)
  {
    var r := IntendedBaseUrl(env, origin);
    if env != "" {
      var stripped := StripTrailing(env, '/');
      if !EndsWith(stripped, ApiSuffix) {
        assert r[|r| - 4..] == ApiSuffix;
      }
    } else if origin != "" {
      assert r[|r| - 4..] == ApiSuffix;
    }
    assert r[|r| - 1] == r[|r| - 4..][3];
    assert StripTrailing(r, '/') == r;
  }

  /** `.../api/` is read as `.../api` by the intended base URL. */
  lemma IntendedTrailingSlashAfterApi(origin: string)
    ensures IntendedBaseUrl("http://h:5000/api/", origin) == "http://h:5000/api"
  {
    var env := "http://h:5000/api/";
    assert StripTrailing(env, '/') == "http://h:5000/api" by {
      assert StripTrailing(env[..|env| - 1], '/') == env[..|env| - 1];
    }
  }

  // ---- The interceptors ----

  /** A request's configuration: its URL and its headers. */
  datatype RequestConfig = RequestConfig(url: string, headers: map<string, string>)

  /** A failed request: the HTTP status when a response arrived, and the
      URL of the request when its configuration is known. */
  datatype HttpError = HttpError(status: Option<int>, url: Option<string>)

  const AuthHeader := "Authorization"
  const LoginPath := "/login"

  /** `localStorage.getItem('token')` when truthy. */
  function StoredToken(storage: map<string, string>): Option<string> {
    if "token" in storage && storage["token"] != "" then Some(storage["token"]) else None
  }

  /** Headers with the bearer header set for a token, and removed without one. */
  function WithAuth(headers: map<string, string>, token: Option<string>): (r: map<string, string>)
    ensures token.Some? ==> AuthHeader in r && r[AuthHeader] == "Bearer " + token.value
    ensures token.None? ==> AuthHeader !in r
    ensures forall k :: k != AuthHeader ==> (k in r <==> k in headers) && (k in r ==> r[k] == headers[k])
  {
    if token.Some? then headers[AuthHeader := "Bearer " + token.value] else headers - {AuthHeader}
  }

  /** The bearer header depends on the token alone: applying it twice is
      applying it once. */
  lemma WithAuthIdempotent(headers: map<string, string>, token: Option<string>)
    ensures WithAuth(WithAuth(headers, token), token) == WithAuth(headers, token)
  {
  }

  /** The URLs whose 401 means bad credentials rather than an expired session. */
  predicate IsLoginOrSignup(url: string)
    ensures IsLoginOrSignup(url) ==> Contains(url, "/auth/")
  {
    AuthPathsAreAuth(url);
    Contains(url, "/auth/login") || Contains(url, "/auth/patient/signup") || Contains(url, "/auth/signup")
  }

  /** Each of the three exempt paths lies under `/auth/`. */
  lemma AuthPathsAreAuth(url: string)
    ensures Contains(url, "/auth/login") || Contains(url, "/auth/patient/signup") || Contains(url, "/auth/signup")
      ==> Contains(url, "/auth/")
  {
    var a := "/auth/";
    if Contains(url, "/auth/login") {
      ContainsPrefix(url, "/auth/login", a);
    } else if Contains(url, "/auth/patient/signup") {
      ContainsPrefix(url, "/auth/patient/signup", a);
    } else if Contains(url, "/auth/signup") {
      ContainsPrefix(url, "/auth/signup", a);
    }
  }

  /** The storage without the credentials a 401 clears. */
  function ClearCredentials(storage: map<string, string>): (r: map<string, string>)
    ensures "token" !in r && "user" !in r
    ensures forall k :: k != "token" && k != "user" ==> (k in r <==> k in storage) && (k in r ==> r[k] == storage[k])
  {
    storage - {"token", "user"}
  }

  class Client {
    var storage: map<string, string>
    var defaults: map<string, string>
    var pathname: string
    var redirect: Option<string>

    constructor (storage0: map<string, string>, pathname0: string)
      ensures storage == storage0 && defaults == map[] && pathname == pathname0 && redirect.None?
    {
      storage := storage0;
      defaults := map[];
      pathname := pathname0;
      redirect := None;
    }

    /** The request interceptor: with a token stored, the request and the
        client's defaults both carry `Bearer <token>`; without one, both
        lose the header. Nothing else in the request changes. */
    method OnRequest(config: RequestConfig) returns (out: RequestConfig)
      modifies this`defaults
      ensures out == config.(headers := WithAuth(config.headers, StoredToken(storage)))
      ensures defaults == WithAuth(old(defaults), StoredToken(storage))
    {
      var token := StoredToken(storage);
      if token.Some? {
        out := config.(headers := config.headers[AuthHeader := "Bearer " + token.value]);
        defaults := defaults[AuthHeader := "Bearer " + token.value];
      } else {
        out := config.(headers := config.headers - {AuthHeader});
        defaults := defaults - {AuthHeader};
      }
    }

    /** The response error interceptor: the error is always passed on.
        A 401 on a login or signup request changes nothing; a 401 on any
        other request clears the token, the user and the default header, and
        sends the page to `/login` unless it is already there. Any other
        error changes nothing. */
    method OnResponseError(err: HttpError) returns (rejected: HttpError)
      modifies this`storage, this`defaults, this`redirect
      ensures rejected == err
      ensures err.status != Some(401) || IsLoginOrSignup(err.url.GetOr("")) ==>
        storage == old(storage) && defaults == old(defaults) && redirect == old(redirect)
      ensures err.status == Some(401) && !IsLoginOrSignup(err.url.GetOr("")) ==>
        storage == ClearCredentials(old(storage)) && defaults == old(defaults) - {AuthHeader}
        && redirect == (if pathname != LoginPath then Some(LoginPath) else old(redirect))
    {
      rejected := err;
      if err.status == Some(401) {
        var url := err.url.GetOr("");
        if IsLoginOrSignup(url) {
          return;
        }
        storage := ClearCredentials(storage);
        defaults := defaults - {AuthHeader};
        if pathname != LoginPath {
          redirect := Some(LoginPath);
        }
      }
    }
  }

  /** After a 401 has cleared the credentials, the next request carries no
      bearer header, whatever headers it started with. */
  lemma NoBearerAfterLogout(storage: map<string, string>, headers: map<string, string>)
    ensures AuthHeader !in WithAuth(headers, StoredToken(ClearCredentials(storage)))
  {
  }

  /** A failed login keeps the session: `/api/auth/login` is a login URL. */
  lemma LoginUrlIsExempt()
    ensures IsLoginOrSignup("/api/auth/login")
  {
    ContainsAt("/api/auth/login", "/auth/login", 4);
  }
}
