// The back office's API client: URL resolution, the auth headers, the
// mapping of a fetch's outcome to a result or an error, and the once-only
// 'session-expired' event raised on 401 and 403.
module ApiClient {
  import opened Wrappers
  import opened Strings
  import opened AuthProvider

  const ContentType := "Content-Type"
  const Authorization := "Authorization"
  const JsonType := "application/json"
  const NetworkMessage := "네트워크 연결을 확인해 주세요."
  const DefaultMessage := "요청을 처리할 수 없습니다."

  /** getAuthHeaders for a token: always the JSON content type, and a
      bearer Authorization only when the token is a non-empty string. */
  function AuthHeaders(token: Option<string>): (r: map<string, string>)
    ensures ContentType in r && r[ContentType] == JsonType
    ensures Authorization in r <==> Truthy(token)
    ensures Truthy(token) ==> r[Authorization] == "Bearer " + token.value
    ensures forall k :: k in r ==> k == ContentType || k == Authorization
  {
    var h := map[ContentType := JsonType];
    if Truthy(token) then h[Authorization := "Bearer " + token.value] else h
  }

  /** `{ ...base, ...extra }`: the caller's headers win. */
  function Merge(base: map<string, string>, extra: map<string, string>): (r: map<string, string>)
    ensures forall k :: k in r <==> k in base || k in extra
    ensures forall k :: k in extra ==> r[k] == extra[k]
    ensures forall k :: k in base && k !in extra ==> r[k] == base[k]
  {
    base + extra
  }

  /** The upload's headers: the auth headers without the content type (the
      browser supplies the multipart boundary), then the caller's. */
  function UploadHeaders(token: Option<string>, extra: map<string, string>): (r: map<string, string>)
    ensures ContentType in r <==> ContentType in extra
    ensures Authorization in r <==> Truthy(token) || Authorization in extra
    ensures Authorization !in extra && Truthy(token) ==> r[Authorization] == "Bearer " + token.value
  {
    Merge(AuthHeaders(token) - {ContentType}, extra)
  }

  /** The path with a leading '/'. */
  function Segment(path: string): (r: string)
    ensures StartsWith(r, "/")
    ensures StartsWith(path, "/") ==> r == path
    ensures !StartsWith(path, "/") ==> r == "/" + path
  {
    if StartsWith(path, "/") then path else "/" + path
  }

  /** resolveUrl: an http(s) URL is kept; any other path gets a leading
      '/' and, outside development, the API base in front. */
  function ResolveUrl(path: string, apiBase: string, isDev: bool): (r: string)
    ensures StartsWith(path, "http") ==> r == path
    ensures !StartsWith(path, "http") ==> r == (if isDev then [] else apiBase) + Segment(path)
  {
    if StartsWith(path, "http") then path
    else
      var base := if isDev && apiBase != [] then [] else apiBase;
      var segment := Segment(path);
      if base != [] then base + segment else segment
  }

  /** In development the base plays no part. */
  lemma DevIgnoresBase(path: string, a: string, b: string)
    ensures ResolveUrl(path, a, true) == ResolveUrl(path, b, true)
  {
  }

  /** In development a resolved path resolves to itself. */
  lemma DevResolveIdempotent(path: string, apiBase: string)
    ensures ResolveUrl(ResolveUrl(path, apiBase, true), apiBase, true) == ResolveUrl(path, apiBase, true)
  {
    var r := ResolveUrl(path, apiBase, true);
    if !StartsWith(path, "http") {
      assert r[0] == '/';
      if |r| >= 4 {
        assert r[..4][0] == '/';
      }
    }
  }

  /** `response.ok`. */
  predicate IsOk(status: int)
  {
    200 <= status <= 299
  }

  /** A response body; only the `detail` member is read (None when it is
      missing or not a string), and a body that is not JSON arrives as the
      `{}` the client puts in its place. */
  datatype Body = Body(detail: Option<string>)

  /** What fetch comes to: a rejection, or a response. */
  datatype Answer = NetworkFailure | Answer(status: int, body: Body)

  /** The call's result: the data and status of an OK response, or the
      error thrown, with its message, `status`, `isNetworkError` and
      `response.data` (None for null). */
  datatype Outcome =
    | Returned(data: Body, status: int)
    | Failed(message: string, status: int, isNetworkError: bool, responseData: Option<Body>)

  /** The message of a non-OK response's error: its string `detail`, else
      the default. */
  function FailureMessage(b: Body): (r: string)
    ensures b.detail.Some? ==> r == b.detail.value
    ensures b.detail.None? ==> r == DefaultMessage
  {
    b.detail.GetOr(DefaultMessage)
  }

  /** How request and upload turn fetch's outcome into theirs. */
  function Settle(a: Answer): (r: Outcome)
    ensures r.Returned? <==> a.Answer? && IsOk(a.status)
    ensures a.NetworkFailure? ==> r == Failed(NetworkMessage, 0, true, None)
    ensures a.Answer? && IsOk(a.status) ==> r == Returned(a.body, a.status)
    ensures a.Answer? && !IsOk(a.status) ==> r == Failed(FailureMessage(a.body), a.status, false, Some(a.body))
    ensures r.Failed? ==> (r.isNetworkError <==> r.status == 0 && a.NetworkFailure?)
  {
    match a
    case NetworkFailure => Failed(NetworkMessage, 0, true, None)
    case Answer(status, body) =>
      if IsOk(status) then Returned(body, status) else Failed(FailureMessage(body), status, false, Some(body))
  }

  /** A 401 or 403 response. */
  predicate Denied(a: Answer)
  {
    a.Answer? && (a.status == 401 || a.status == 403)
  }

  /** The thrown error as the auth provider's checkError sees it: both
      `status` and `response.status` are set. */
  function ErrorOf(o: Outcome): (r: ErrorInfo)
    requires o.Failed?
    ensures r.status == Some(o.status) && r.responseStatus == Some(o.status)
  {
    ErrorInfo(Some(o.status), Some(o.status))
  }

  /** checkError logs the user out for exactly the errors of 401 and 403
      responses; a network error, with its status 0, never does. */
  lemma CheckErrorSeesDenied(a: Answer)
    requires Settle(a).Failed?
    ensures Unauthorized(ErrorStatus(Some(ErrorOf(Settle(a))))) <==> Denied(a)
    ensures a.NetworkFailure? ==> !Unauthorized(ErrorStatus(Some(ErrorOf(Settle(a)))))
  {
  }

  /** The request handed to fetch: its method, URL and headers (the body
      and `credentials: 'include'` are passed as they are). */
  datatype Sent = Sent(verb: string, url: string, headers: map<string, string>)

  class Client {
    const storage: WebStorage
    const apiBase: string
    const isDev: bool
    /** The module's `sessionExpiredDispatched` flag. */
    var sessionExpiredDispatched: bool
    /** 'session-expired' events dispatched so far, and since the last reset. */
    var events: nat
    var eventsSinceReset: nat

    /** The flag is up exactly when an event went out since the last reset,
        so at most one event goes out between two resets. */
    predicate Valid()
      reads this
    {
      eventsSinceReset == (if sessionExpiredDispatched then 1 else 0)
    }

    constructor (storage: WebStorage, apiBase: string, isDev: bool)
      ensures Valid() && this.storage == storage && this.apiBase == apiBase && this.isDev == isDev
      ensures !sessionExpiredDispatched && events == 0
    {
      this.storage := storage;
      this.apiBase := apiBase;
      this.isDev := isDev;
      sessionExpiredDispatched := false;
      events := 0;
      eventsSinceReset := 0;
    }

    /** handleUnauthorized: token and user leave both storages on every
        call; the event goes out only when the flag is down. */
    method HandleUnauthorized()
      requires Valid()
      modifies this, storage
      ensures Valid() && sessionExpiredDispatched && eventsSinceReset <= 1
      ensures storage.local == old(storage.local) - {UserKey, TokenKey}
      ensures storage.session == old(storage.session) - {UserKey, TokenKey}
      ensures events == old(events) + (if old(sessionExpiredDispatched) then 0 else 1)
    {
      storage.ClearAuth();
      if sessionExpiredDispatched {
        return;
      }
      sessionExpiredDispatched := true;
      events := events + 1;
      eventsSinceReset := 1;
    }

    /** resetSessionExpiredFlag: the next 401 or 403 raises the event again. */
    method ResetSessionExpiredFlag()
      modifies this`sessionExpiredDispatched, this`eventsSinceReset
      ensures Valid() && !sessionExpiredDispatched
    {
      sessionExpiredDispatched := false;
      eventsSinceReset := 0;
    }

    /** The part request and upload share once fetch has settled. */
    method Conclude(a: Answer) returns (r: Outcome)
      requires Valid()
      modifies this, storage
      ensures Valid() && r == Settle(a)
      ensures Denied(a) ==>
        sessionExpiredDispatched &&
        storage.local == old(storage.local) - {UserKey, TokenKey} &&
        storage.session == old(storage.session) - {UserKey, TokenKey} &&
        events == old(events) + (if old(sessionExpiredDispatched) then 0 else 1)
      ensures !Denied(a) ==>
        storage.local == old(storage.local) && storage.session == old(storage.session) &&
        sessionExpiredDispatched == old(sessionExpiredDispatched) && events == old(events)
    {
      if Denied(a) {
        HandleUnauthorized();
      }
      r := Settle(a);
    }

    /** request (and get, post, put, delete and patch, which fix the
        method): fetch is sent the resolved URL and the auth headers under
        the caller's, and its outcome `a` is settled. */
    method Request(verb: string, path: string, extra: map<string, string>, a: Answer) returns (sent: Sent, r: Outcome)
      requires Valid()
      modifies this, storage
      ensures sent == Sent(verb, ResolveUrl(path, apiBase, isDev), Merge(AuthHeaders(old(storage.Token())), extra))
      ensures Valid() && r == Settle(a)
      ensures Denied(a) ==>
        sessionExpiredDispatched &&
        storage.local == old(storage.local) - {UserKey, TokenKey} &&
        storage.session == old(storage.session) - {UserKey, TokenKey} &&
        events == old(events) + (if old(sessionExpiredDispatched) then 0 else 1)
      ensures !Denied(a) ==>
        storage.local == old(storage.local) && storage.session == old(storage.session) &&
        sessionExpiredDispatched == old(sessionExpiredDispatched) && events == old(events)
    {
      sent := Sent(verb, ResolveUrl(path, apiBase, isDev), Merge(AuthHeaders(storage.Token()), extra));
      r := Conclude(a);
    }

    /** upload: a POST whose headers drop the JSON content type. */
    method Upload(path: string, extra: map<string, string>, a: Answer) returns (sent: Sent, r: Outcome)
      requires Valid()
      modifies this, storage
      ensures sent == Sent("POST", ResolveUrl(path, apiBase, isDev), UploadHeaders(old(storage.Token()), extra))
      ensures Valid() && r == Settle(a)
      ensures Denied(a) ==>
        sessionExpiredDispatched &&
        storage.local == old(storage.local) - {UserKey, TokenKey} &&
        storage.session == old(storage.session) - {UserKey, TokenKey} &&
        events == old(events) + (if old(sessionExpiredDispatched) then 0 else 1)
      ensures !Denied(a) ==>
        storage.local == old(storage.local) && storage.session == old(storage.session) &&
        sessionExpiredDispatched == old(sessionExpiredDispatched) && events == old(events)
    {
      sent := Sent("POST", ResolveUrl(path, apiBase, isDev), UploadHeaders(storage.Token(), extra));
      r := Conclude(a);
    }

    /** Two denied responses in a row, as from two requests in flight when
        the session ends, raise one event between them at most. */
    method DeniedTwice(path: string, a1: Answer, a2: Answer) returns (r1: Outcome, r2: Outcome)
      requires Valid() && Denied(a1) && Denied(a2)
      modifies this, storage
      ensures Valid() && events == old(events) + (if old(sessionExpiredDispatched) then 0 else 1)
      ensures r1.Failed? && r2.Failed? && r1.status == a1.status && r2.status == a2.status
      ensures storage.CheckAuth().Rejected?
    {
      var s1, s2;
      s1, r1 := Request("GET", path, map[], a1);
      s2, r2 := Request("GET", path, map[], a2);
    }
  }
}
