/** The endpoints that create and revoke credentials: registration, login,
    logout, password change and the two administrative session deactivations.
    Each is a method over the database object; the permission classes in front
    of them are not part of this model. */
module Views {
  import opened Base
  import opened Models
  import Sessions
  import Store
  import opened Authentication
  import Serializers

  /** The cookie login sets, and the one logout reads. */
  const LoginCookie: string := "session_id"
  const LogoutCookie: string := "sessionid"

  /** The sessions after logout's bearer branch: `filter(token=t, is_active=True)
      .update(is_active=False)` when the header carries a bearer token. */
  function AfterBearerLogout(sessions: seq<Session>, header: string): seq<Session> {
    match BearerToken(header)
    case None => sessions
    case Some(token) => Sessions.Revoke(sessions, Sessions.ActiveWithToken(token))
  }

  /** The sessions after a password change's revocation: every other active
      session of the user, when the header carries the current token. */
  function AfterPasswordChange(sessions: seq<Session>, user: Id, header: string): seq<Session> {
    match BearerToken(header)
    case None => sessions
    case Some(token) => Sessions.Revoke(sessions, Sessions.ActiveOfUserExcept(user, token))
  }

  /** `RegisterView.post`: validate, create the user through the manager, then
      assign the default role that `Role.objects.filter(is_default=True).first()`
      finds, if there is one. */
  method Register(db: Store.Db, data: Serializers.Data, hash: Hasher) returns (status: int, user: Option<User>)
    requires db.Valid()
    modifies db`users, db`nextId, db`userRoles
    ensures db.Valid()
    ensures status == HttpBadRequest || status == HttpCreated
    ensures status == HttpBadRequest <==> Serializers.ValidateRegistration(data, Store.Emails(old(db.users))).Invalid?
    ensures status == HttpBadRequest ==>
              user.None? && db.users == old(db.users) && db.userRoles == old(db.userRoles) && db.nextId == old(db.nextId)
    ensures status == HttpCreated ==>
              var v := Serializers.ValidateRegistration(data, Store.Emails(old(db.users))).value;
              user == Some(NewUser(old(db.nextId), data["email"], Some(data["password"]), Serializers.RegistrationExtra(v), hash)) &&
              db.users == old(db.users) + [user.value]
    ensures status == HttpCreated ==>
              db.userRoles == old(db.userRoles) +
                match LatestDefaultRole(db.roles)
                case None => []
                case Some(role) => [UserRole(old(db.nextId) + 1, user.value.id, role.id, None)]
  {
    var v := Serializers.ValidateRegistration(data, Store.Emails(db.users));
    if v.Invalid? {
      return HttpBadRequest, None;
    }
    var values := v.value;
    var r := db.CreateUser(values["email"], Some(values["password"]), Serializers.RegistrationExtra(values), hash);
    var u := r.value;
    var role := LatestDefaultRole(db.roles);
    if role.Some? {
      forall a | a in db.userRoles ensures a.user != u.id {
        var owner :| owner in old(db.users) && owner.id == a.user;
      }
      var assignment := db.AssignRole(u.id, role.value.id, None);
    }
    return HttpCreated, Some(u);
  }

  /** `LoginView.post`: validate, find the active user by email, check the
      password, then issue a token, store its session and set the `session_id`
      cookie to the session's id. */
  method Login(db: Store.Db, data: Serializers.Data, verify: Verifier, encode: Encoder, now: Time)
    returns (status: int, token: Option<string>, profile: Option<Serializers.ProfileView>, cookies: map<string, string>)
    requires db.Valid()
    modifies db`sessions, db`nextId
    ensures db.Valid()
    ensures status == HttpOk || status == HttpBadRequest || status == HttpUnauthorized
    ensures status == HttpBadRequest <==> Serializers.ValidateLogin(data).Invalid?
    ensures status != HttpOk ==> db.sessions == old(db.sessions) && db.nextId == old(db.nextId) && token.None? && cookies == map[]
    ensures status == HttpUnauthorized <==>
              Serializers.ValidateLogin(data).Valid? &&
              (FindActiveUserByEmail(db.users, data["email"]).None? ||
               !CheckPassword(verify, FindActiveUserByEmail(db.users, data["email"]).value, data["password"]))
    ensures status == HttpOk <==>
              Serializers.ValidateLogin(data).Valid? && FindActiveUserByEmail(db.users, data["email"]).Some? &&
              CheckPassword(verify, FindActiveUserByEmail(db.users, data["email"]).value, data["password"])
    ensures status == HttpOk ==>
              var u := FindActiveUserByEmail(db.users, data["email"]).value;
              token == Some(GenerateToken(encode, u, now)) &&
              profile == Some(Serializers.ProfileOf(u)) &&
              db.sessions == old(db.sessions) + [Sessions.NewSession(old(db.nextId), u.id, token.value, now)] &&
              cookies == map[LoginCookie := IdText(old(db.nextId))]
  {
    var creds := Serializers.ValidateLogin(data);
    if creds.Invalid? {
      return HttpBadRequest, None, None, map[];
    }
    var found := FindActiveUserByEmail(db.users, creds.value.email);
    if found.None? {
      return HttpUnauthorized, None, None, map[];
    }
    var u := found.value;
    if !CheckPassword(verify, u, creds.value.password) {
      return HttpUnauthorized, None, None, map[];
    }
    var issued := GenerateToken(encode, u, now);
    var s := db.InsertSession(u.id, issued, now);
    status, token, profile := HttpOk, Some(issued), Some(Serializers.ProfileOf(u));
    cookies := map[LoginCookie := IdText(s.id)];
  }

  /** `LogoutView.post`: revoke the bearer token's active sessions, then the
      session named by the `sessionid` cookie. A cookie value that is not an
      identifier raises after the first update has already been applied. */
  method Logout(db: Store.Db, header: string, cookies: map<string, string>) returns (status: int)
    requires db.Valid()
    modifies db`sessions
    ensures db.Valid()
    ensures status == HttpOk || status == HttpServerError
    ensures LogoutCookie !in cookies || cookies[LogoutCookie] == "" ==>
              status == HttpOk && db.sessions == AfterBearerLogout(old(db.sessions), header)
    ensures LogoutCookie in cookies && cookies[LogoutCookie] != "" ==>
              match ParseId(cookies[LogoutCookie])
              case None => status == HttpServerError && db.sessions == AfterBearerLogout(old(db.sessions), header)
              case Some(sid) => status == HttpOk &&
                                db.sessions == Sessions.Revoke(AfterBearerLogout(old(db.sessions), header), Sessions.WithId(sid))
  {
    var bearer := BearerToken(header);
    if bearer.Some? {
      var revoked := db.RevokeWhere(Sessions.ActiveWithToken(bearer.value));
    }
    if LogoutCookie in cookies && cookies[LogoutCookie] != "" {
      var sid := ParseId(cookies[LogoutCookie]);
      if sid.None? {
        return HttpServerError;
      }
      var revoked := db.RevokeWhere(Sessions.WithId(sid.value));
    }
    return HttpOk;
  }

  /** `ChangePasswordView.post` for the signed-in user: validate, check the old
      password, store the new hash, then revoke the user's other active sessions
      when the current bearer token is known. */
  method ChangePassword(db: Store.Db, user: Id, header: string, data: Serializers.Data, verify: Verifier, hash: Hasher)
    returns (status: int)
    requires db.Valid()
    requires user in Store.UserIds(db.users)
    modifies db`users, db`sessions
    ensures db.Valid()
    ensures status == HttpOk || status == HttpBadRequest
    ensures status == HttpBadRequest <==>
              Serializers.ValidatePasswordChange(data).Invalid? ||
              !CheckPassword(verify, old(db.users)[Store.UserIndex(old(db.users), user)],
                             Serializers.ValidatePasswordChange(data).value.oldPassword)
    ensures status == HttpBadRequest ==> db.users == old(db.users) && db.sessions == old(db.sessions)
    ensures status == HttpOk ==>
              |db.users| == |old(db.users)| &&
              (forall i :: 0 <= i < |db.users| ==>
                 db.users[i] == if old(db.users)[i].id == user
                                then old(db.users)[i].(password := hash(data["new_password"]))
                                else old(db.users)[i]) &&
              db.sessions == AfterPasswordChange(old(db.sessions), user, header)
  {
    var v := Serializers.ValidatePasswordChange(data);
    if v.Invalid? {
      return HttpBadRequest;
    }
    var current := db.users[Store.UserIndex(db.users, user)];
    if !CheckPassword(verify, current, v.value.oldPassword) {
      return HttpBadRequest;
    }
    db.SetPassword(user, v.value.newPassword, hash);
    var bearer := BearerToken(header);
    if bearer.Some? {
      var revoked := db.RevokeWhere(Sessions.ActiveOfUserExcept(user, bearer.value));
    }
    return HttpOk;
  }

  /** `SessionViewSet.deactivate`: the session named in the URL is set inactive
      whatever its state; a key that is not an identifier or names no session is
      a 404. */
  method DeactivateSession(db: Store.Db, pk: string) returns (status: int)
    requires db.Valid()
    modifies db`sessions
    ensures db.Valid()
    ensures status == HttpOk || status == HttpNotFound
    ensures status == HttpOk <==> ParseId(pk).Some? && exists s :: s in old(db.sessions) && s.id == ParseId(pk).value
    ensures status == HttpNotFound ==> db.sessions == old(db.sessions)
    ensures status == HttpOk ==> db.sessions == Sessions.Revoke(old(db.sessions), Sessions.WithId(ParseId(pk).value))
  {
    var sid := ParseId(pk);
    if sid.None? {
      return HttpNotFound;
    }
    if forall s :: s in db.sessions ==> s.id != sid.value {
      return HttpNotFound;
    }
    var revoked := db.RevokeWhere(Sessions.WithId(sid.value));
    return HttpOk;
  }

  /** `SessionViewSet.deactivate_all_user_sessions`: a missing or empty `user_id`
      is a 400; text that is not an identifier raises; otherwise every active
      session of that user is deactivated and their number reported. */
  method DeactivateAllUserSessions(db: Store.Db, data: Serializers.Data) returns (status: int, count: Option<nat>)
    requires db.Valid()
    modifies db`sessions
    ensures db.Valid()
    ensures "user_id" !in data || data["user_id"] == "" ==> status == HttpBadRequest && count.None?
    ensures status != HttpOk ==> db.sessions == old(db.sessions) && count.None?
    ensures "user_id" in data && data["user_id"] != "" && ParseId(data["user_id"]).None? ==> status == HttpServerError
    ensures status == HttpOk <==> "user_id" in data && ParseId(data["user_id"]).Some?
    ensures status == HttpOk ==>
              var user := ParseId(data["user_id"]).value;
              db.sessions == Sessions.Revoke(old(db.sessions), Sessions.ActiveOfUser(user)) &&
              count == Some(Sessions.Count(old(db.sessions), Sessions.ActiveOfUser(user)))
  {
    if "user_id" !in data || data["user_id"] == "" {
      return HttpBadRequest, None;
    }
    var user := ParseId(data["user_id"]);
    if user.None? {
      return HttpServerError, None;
    }
    var n := db.RevokeWhere(Sessions.ActiveOfUser(user.value));
    return HttpOk, Some(n);
  }

  // ---------------------------------------------------------------------------
  // What the revocations mean for later requests.

  /** After a password change sent with token t, a request with t is resolved
      exactly as before, and the user's other tokens are refused. */
  lemma {:induction false} PasswordChangeKeepsOnlyCurrent(decode: Decoder, users: seq<User>, sessions: seq<Session>,
                                                          user: Id, current: string, other: string, now: Time)
    requires ' ' !in current && ' ' !in other && other != current
    requires decode(other).Ok? && decode(other).claims.userId.Some? && decode(other).claims.userId.value != ""
    requires ParseId(decode(other).claims.userId.value) == Some(user)
    ensures Authenticate(decode, users, AfterPasswordChange(sessions, user, BearerPrefix + current), BearerPrefix + current, now)
            == Authenticate(decode, users, sessions, BearerPrefix + current, now)
    ensures Authenticate(decode, users, AfterPasswordChange(sessions, user, BearerPrefix + current), BearerPrefix + other, now)
            == Failed(SessionExpired)
  {
    PasswordChangeKeepsCurrent(decode, users, sessions, user, current, now);
    PasswordChangeRevokesOthers(decode, users, sessions, user, current, other, now);
  }

  /** Any other token of the user no longer authenticates. */
  lemma {:induction false} PasswordChangeRevokesOthers(decode: Decoder, users: seq<User>, sessions: seq<Session>,
                                                      user: Id, current: string, other: string, now: Time)
    requires ' ' !in current && ' ' !in other && other != current
    requires decode(other).Ok? && decode(other).claims.userId.Some? && decode(other).claims.userId.value != ""
    requires ParseId(decode(other).claims.userId.value) == Some(user)
    ensures Authenticate(decode, users, AfterPasswordChange(sessions, user, BearerPrefix + current), BearerPrefix + other, now)
            == Failed(SessionExpired)
  {
    BearerTokenOf(current);
    BearerTokenOf(other);
    var f := Sessions.ActiveOfUserExcept(user, current);
    var after := Sessions.Revoke(sessions, f);
    assert AfterPasswordChange(sessions, user, BearerPrefix + current) == after;
    Sessions.RevokedNotFound(sessions, f, Sessions.UserToken(user, other), now);
    assert Sessions.Find(after, Sessions.UserToken(user, other), now).None?;
    assert AuthenticateCredentials(decode, users, after, other, now) == Failed(SessionExpired);
  }

  /** The token the password change was made with still resolves as before. */
  lemma {:induction false} PasswordChangeKeepsCurrent(decode: Decoder, users: seq<User>, sessions: seq<Session>,
                                                     user: Id, current: string, now: Time)
    requires ' ' !in current
    ensures Authenticate(decode, users, AfterPasswordChange(sessions, user, BearerPrefix + current), BearerPrefix + current, now)
            == Authenticate(decode, users, sessions, BearerPrefix + current, now)
  {
    BearerTokenOf(current);
    var f := Sessions.ActiveOfUserExcept(user, current);
    var after := Sessions.Revoke(sessions, f);
    assert AfterPasswordChange(sessions, user, BearerPrefix + current) == after;
    // The current token's lookups select the same rows before and after.
    forall id: Id, s | s in after && Sessions.Selects(Sessions.UserToken(id, current), s, now)
      ensures s in sessions
    {
      var i :| 0 <= i < |after| && after[i] == s;
      Sessions.RevokeOnlyDeactivates(sessions, f, i);
    }
    forall id: Id, s | s in sessions && Sessions.Selects(Sessions.UserToken(id, current), s, now)
      ensures exists t :: t in after && Sessions.Selects(Sessions.UserToken(id, current), t, now)
    {
      var i :| 0 <= i < |sessions| && sessions[i] == s;
      Sessions.RevokeOnlyDeactivates(sessions, f, i);
      assert after[i] == s;
    }
  }
}
