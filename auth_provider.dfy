// The back office's auth provider: the access token and the user kept in
// the browser's localStorage and sessionStorage, and the login, logout,
// checkAuth, checkError and getIdentity callbacks that read and write them.
module AuthProvider {
  import opened Wrappers
  import opened Strings

  const UserKey := "user"
  const TokenKey := "access_token"
  const ExpiredReasonKey := "login_expired_reason"
  const SessionExpiredReason := "session_expired"
  const LoginFailed := "로그인에 실패했습니다."
  const ServerUnreachable := "API 서버에 연결할 수 없습니다. (.env 의 VITE_API_URL 확인)"
  const AuthRequired := "인증이 필요합니다."

  /** `getItem`: the stored string, or null. */
  function Item(m: map<string, string>, key: string): (r: Option<string>)
    ensures r.Some? <==> key in m
    ensures r.Some? ==> r.value == m[key]
  {
    if key in m then Some(m[key]) else None
  }

  /** JavaScript truthiness of a stored value: present and not empty. */
  predicate Truthy(v: Option<string>)
  {
    v.Some? && v.value != []
  }

  /** `a || b` on two stored values. */
  function Or(a: Option<string>, b: Option<string>): (r: Option<string>)
    ensures Truthy(a) ==> r == a
    ensures !Truthy(a) ==> r == b
    ensures Truthy(r) <==> Truthy(a) || Truthy(b)
  {
    if Truthy(a) then a else b
  }

  /** The members of a stored or fetched user object that are read. */
  datatype UserJson = UserJson(id: Option<int>, name: Option<string>, nickname: Option<string>, email: Option<string>)

  datatype Identity = Identity(id: Option<int>, fullName: Option<string>)

  /** How a returned promise settles; a rejection may carry an Error's message. */
  datatype Settled = Resolved | Rejected(message: Option<string>)

  /** What the login request comes to: an OK response with its token and the
      serialised user, a non-OK response with its `detail`, or an error
      thrown on the way (a failed fetch, a body that is not JSON). */
  datatype LoginReply = Accepted(accessToken: string, userJson: string) | Refused(detail: Option<string>) | Thrown(message: string)

  /** The `status` and `response.status` members of an error handed to
      checkError. */
  datatype ErrorInfo = ErrorInfo(status: Option<int>, responseStatus: Option<int>)

  /** The login's catch: a message mentioning "fetch" is replaced by the
      connection message, any other is rethrown as it is. */
  function CaughtMessage(m: string): (r: string)
    ensures Contains(m, "fetch") ==> r == ServerUnreachable
    ensures !Contains(m, "fetch") ==> r == m
  {
    if Contains(m, "fetch") then ServerUnreachable else m
  }

  /** The message a failed login rejects with. */
  function LoginMessage(reply: LoginReply): (r: string)
    requires !reply.Accepted?
    ensures reply.Thrown? ==> r == CaughtMessage(reply.message)
    ensures reply.Refused? && Truthy(reply.detail) ==> r == CaughtMessage(reply.detail.value)
    ensures reply.Refused? && !Truthy(reply.detail) ==> r == LoginFailed
  {
    match reply
    case Thrown(m) => CaughtMessage(m)
    case Refused(d) => LoginFailedKept(); CaughtMessage(if Truthy(d) then d.value else LoginFailed)
  }

  /** The default message does not mention "fetch", so it is kept. */
  lemma LoginFailedKept()
    ensures CaughtMessage(LoginFailed) == LoginFailed
  {
    AbsentCharNotContained(LoginFailed, "fetch", 0);
  }

  /** `error?.status || error?.response?.status`. */
  function ErrorStatus(error: Option<ErrorInfo>): (r: Option<int>)
    ensures error.None? ==> r.None?
    ensures error.Some? && error.value.status.Some? && error.value.status.value != 0 ==> r == error.value.status
    ensures error.Some? && !(error.value.status.Some? && error.value.status.value != 0) ==> r == error.value.responseStatus
  {
    match error
    case None => None
    case Some(e) => if e.status.Some? && e.status.value != 0 then e.status else e.responseStatus
  }

  predicate Unauthorized(status: Option<int>)
  {
    status == Some(401) || status == Some(403)
  }

  /** `user.name || user.email`. */
  function FullName(u: UserJson): (r: Option<string>)
    ensures Truthy(u.name) ==> r == u.name
    ensures !Truthy(u.name) ==> r == u.email
    ensures Truthy(r) <==> Truthy(u.name) || Truthy(u.email)
  {
    Or(u.name, u.email)
  }

  /** Neither storage holds a token or a user. */
  predicate SignedOut(local: map<string, string>, session: map<string, string>)
  {
    !Truthy(Item(local, TokenKey)) && !Truthy(Item(session, TokenKey)) &&
    !Truthy(Item(local, UserKey)) && !Truthy(Item(session, UserKey))
  }

  /** The two web storages of the back office's origin. */
  class WebStorage {
    var local: map<string, string>
    var session: map<string, string>

    constructor (local0: map<string, string>, session0: map<string, string>)
      ensures local == local0 && session == session0
    {
      local := local0;
      session := session0;
    }

    /** getToken (and the API client's getAccessToken): the local token
        when there is one, else whatever the session holds. */
    function Token(): (r: Option<string>)
      reads this
      ensures Truthy(Item(local, TokenKey)) ==> r == Item(local, TokenKey)
      ensures !Truthy(Item(local, TokenKey)) ==> r == Item(session, TokenKey)
      ensures Truthy(r) <==> Truthy(Item(local, TokenKey)) || Truthy(Item(session, TokenKey))
    {
      Or(Item(local, TokenKey), Item(session, TokenKey))
    }

    /** getUser: the same preference for the serialised user. */
    function User(): (r: Option<string>)
      reads this
      ensures Truthy(Item(local, UserKey)) ==> r == Item(local, UserKey)
      ensures !Truthy(Item(local, UserKey)) ==> r == Item(session, UserKey)
      ensures Truthy(r) <==> Truthy(Item(local, UserKey)) || Truthy(Item(session, UserKey))
    {
      Or(Item(local, UserKey), Item(session, UserKey))
    }

    /** clearAuth: both keys leave both storages; nothing else changes. */
    method ClearAuth()
      modifies this
      ensures local == old(local) - {UserKey, TokenKey}
      ensures session == old(session) - {UserKey, TokenKey}
      ensures Token().None? && User().None?
    {
      local := local - {UserKey, TokenKey};
      session := session - {UserKey, TokenKey};
    }

    /** login: on success the token and the user are written to
        localStorage, whatever "remember me" says; otherwise nothing is
        written and the promise rejects with the failure's message. */
    method Login(reply: LoginReply) returns (r: Settled)
      modifies this`local
      ensures reply.Accepted? ==> r == Resolved && local == old(local)[TokenKey := reply.accessToken][UserKey := reply.userJson]
      ensures !reply.Accepted? ==> r == Rejected(Some(LoginMessage(reply))) && local == old(local)
      ensures reply.Accepted? && reply.accessToken != [] ==> Token() == Some(reply.accessToken) && CheckAuth() == Resolved
    {
      if !reply.Accepted? {
        return Rejected(Some(LoginMessage(reply)));
      }
      local := local[TokenKey := reply.accessToken];
      local := local[UserKey := reply.userJson];
      assert Item(local, TokenKey) == Some(reply.accessToken);
      r := Resolved;
    }

    /** logout: clearAuth, then resolve. */
    method Logout() returns (r: Settled)
      modifies this
      ensures r == Resolved
      ensures local == old(local) - {UserKey, TokenKey}
      ensures session == old(session) - {UserKey, TokenKey}
      ensures CheckAuth() == Rejected(Some(AuthRequired))
    {
      ClearAuth();
      r := Resolved;
    }

    /** checkAuth: rejects exactly when neither storage holds a token or a
        user. */
    function CheckAuth(): (r: Settled)
      reads this
      ensures r == Resolved || r == Rejected(Some(AuthRequired))
      ensures r.Rejected? <==> SignedOut(local, session)
    {
      if !Truthy(Token()) && !Truthy(User()) then Rejected(Some(AuthRequired)) else Resolved
    }

    /** checkError: a 401 or 403 records why the session ended, clears the
        auth and rejects; any other error resolves and changes nothing. */
    method CheckError(error: Option<ErrorInfo>) returns (r: Settled)
      modifies this
      ensures Unauthorized(ErrorStatus(error)) ==>
        r == Rejected(None) && local == old(local) - {UserKey, TokenKey} &&
        session == old(session)[ExpiredReasonKey := SessionExpiredReason] - {UserKey, TokenKey}
      ensures Unauthorized(ErrorStatus(error)) ==>
        CheckAuth().Rejected? && Item(session, ExpiredReasonKey) == Some(SessionExpiredReason)
      ensures !Unauthorized(ErrorStatus(error)) ==> r == Resolved && local == old(local) && session == old(session)
    {
      if !Unauthorized(ErrorStatus(error)) {
        return Resolved;
      }
      session := session[ExpiredReasonKey := SessionExpiredReason];
      ClearAuth();
      assert ExpiredReasonKey !in {UserKey, TokenKey};
      r := Rejected(None);
    }

    /** getIdentity: the stored user parsed (`parse` is JSON.parse; None
        where it throws), or `{}` when nothing is stored. */
    function GetIdentity(parse: string -> Option<UserJson>): (r: Option<Identity>)
      reads this
      ensures !Truthy(User()) ==> r == Some(Identity(None, None))
      ensures Truthy(User()) ==> (r.None? <==> parse(User().value).None?)
      ensures Truthy(User()) && r.Some? ==>
        r.value == Identity(parse(User().value).value.id, FullName(parse(User().value).value))
    {
      var raw := User();
      if !Truthy(raw) then Some(Identity(None, None))
      else match parse(raw.value)
        case None => None
        case Some(u) => Some(Identity(u.id, FullName(u)))
    }
  }
}
