/** The lenient resolver the middleware runs on every request: the bearer token
    first, then the `session_id` cookie, with every expected failure turned into
    "no user". */
module Middleware {
  import opened Base
  import opened Models
  import Sessions
  import opened Authentication

  /** What one channel yields: no user, a user, or an exception that escapes. */
  datatype Channel = NoUser | Found(user: User) | Escaped(error: Escape)

  /** Exceptions the channels do not catch: a payload without `user_id`, an id
      that is not an identifier on the token channel, a session whose user row is
      gone on the cookie channel, and (as written) a cookie that is not an
      identifier. */
  datatype Escape = MissingUserId | MalformedUserId | MissingUser | MalformedCookie

  const SessionCookie: string := "session_id"

  /** `authenticate_by_token`. */
  function ByToken(decode: Decoder, users: seq<User>, sessions: seq<Session>, header: string, now: Time): (r: Channel)
    ensures !StartsWith(header, BearerPrefix) ==> r == NoUser
    ensures StartsWith(header, BearerPrefix) ==>
              (decode(BearerToken(header).value) == Expired || decode(BearerToken(header).value) == Invalid ==> r == NoUser)
    ensures r.Found? ==> r.user in users && r.user.isActive &&
                         HasLiveSession(sessions, r.user.id, BearerToken(header).value, now)
    ensures r.Found? ==> decode(BearerToken(header).value).Ok? && decode(BearerToken(header).value).claims.userId.Some? &&
                         ParseId(decode(BearerToken(header).value).claims.userId.value) == Some(r.user.id)
    ensures r.Escaped? <==>
              StartsWith(header, BearerPrefix) && decode(BearerToken(header).value).Ok? &&
              (decode(BearerToken(header).value).claims.userId.None? ||
               (decode(BearerToken(header).value).claims.userId.value != "" &&
                ParseId(decode(BearerToken(header).value).claims.userId.value).None?))
    ensures r.Escaped? ==> (r.error == MissingUserId <==> decode(BearerToken(header).value).claims.userId.None?)
  {
    match BearerToken(header)
    case None => NoUser
    case Some(token) =>
      match decode(token)
      case Expired => NoUser
      case Invalid => NoUser
      case Ok(claims) =>
        match claims.userId
        case None => Escaped(MissingUserId)
        case Some(uid) =>
          if uid == "" then NoUser
          else
            match ParseId(uid)
            case None => Escaped(MalformedUserId)
            case Some(id) =>
              match Sessions.Find(sessions, Sessions.UserToken(id, token), now)
              case None => NoUser
              case Some(_) =>
                match FindUser(users, id, true)
                case None => NoUser
                case Some(u) => Found(u)
  }

  /** `authenticate_by_session` as its handler intends: a missing or empty
      cookie, text that is not an identifier, and a missing or stale session all
      give no user. The user the session points to is returned as it is: its
      active flag is never read. */
  function BySession(users: seq<User>, sessions: seq<Session>, cookies: map<string, string>, now: Time): (r: Channel)
    ensures SessionCookie !in cookies || cookies[SessionCookie] == "" ==> r == NoUser
    ensures SessionCookie in cookies && ParseId(cookies[SessionCookie]).None? ==> r == NoUser
    ensures SessionCookie in cookies && ParseId(cookies[SessionCookie]).Some? &&
            (forall s :: s in sessions && s.id == ParseId(cookies[SessionCookie]).value ==> !IsLive(s, now)) ==>
              r == NoUser
    ensures r.Found? ==> r.user in users &&
                         exists s :: s in sessions && ParseId(cookies[SessionCookie]) == Some(s.id) &&
                                     IsLive(s, now) && s.user == r.user.id
    ensures r.Escaped? ==> r.error == MissingUser &&
                           exists s :: s in sessions && ParseId(cookies[SessionCookie]) == Some(s.id) &&
                                       IsLive(s, now) && forall u :: u in users ==> u.id != s.user
    ensures UniqueSessionIds(sessions) ==>
              forall s :: s in sessions && SessionCookie in cookies && ParseId(cookies[SessionCookie]) == Some(s.id) &&
                          IsLive(s, now) ==>
                            (r.Found? <==> exists u :: u in users && u.id == s.user) &&
                            (r.Found? ==> r.user.id == s.user)
  {
    if SessionCookie !in cookies || cookies[SessionCookie] == "" then NoUser
    else
      match ParseId(cookies[SessionCookie])
      case None => NoUser
      case Some(sid) =>
        match Sessions.Find(sessions, Sessions.SessionId(sid), now)
        case None => NoUser
        case Some(s) =>
          match FindUser(users, s.user, false)
          case None => Escaped(MissingUser)
          case Some(u) => Found(u)
  }

  /** `authenticate_user`: the token channel's user wins; only when it yields no
      user is the cookie consulted. An exception ends the request either way. */
  function AuthenticateUser(decode: Decoder, users: seq<User>, sessions: seq<Session>, header: string,
                            cookies: map<string, string>, now: Time): (r: Channel)
    ensures ByToken(decode, users, sessions, header, now) != NoUser ==> r == ByToken(decode, users, sessions, header, now)
    ensures ByToken(decode, users, sessions, header, now) == NoUser ==> r == BySession(users, sessions, cookies, now)
    ensures r == NoUser <==> ByToken(decode, users, sessions, header, now) == NoUser &&
                             BySession(users, sessions, cookies, now) == NoUser
  {
    var byToken := ByToken(decode, users, sessions, header, now);
    if byToken.Found? then byToken
    else if byToken.Escaped? then byToken
    else BySession(users, sessions, cookies, now)
  }

  /** With a store whose sessions all belong to existing users, the cookie channel
      never raises. */
  lemma {:induction false} BySessionNeverEscapes(users: seq<User>, sessions: seq<Session>, cookies: map<string, string>, now: Time)
    requires forall s :: s in sessions ==> exists u :: u in users && u.id == s.user
    ensures !BySession(users, sessions, cookies, now).Escaped?
  {
    if SessionCookie in cookies && cookies[SessionCookie] != "" && ParseId(cookies[SessionCookie]).Some? {
      var found := Sessions.Find(sessions, Sessions.SessionId(ParseId(cookies[SessionCookie]).value), now);
      if found.Some? {
        var s := found.value;
        var u :| u in users && u.id == s.user;
        assert FindUser(users, s.user, false).Some?;
      }
    }
  }

  /** The cookie channel accepts a soft-deleted (inactive) user whose session is
      still live, where the token channel refuses that user whatever the token. */
  lemma {:induction false} CookieIgnoresActiveFlag(users: seq<User>, sessions: seq<Session>, u: User, s: Session, now: Time)
    requires UniqueUserIds(users) && UniqueSessionIds(sessions)
    requires u in users && s in sessions && s.user == u.id
    requires !u.isActive && IsLive(s, now)
    ensures BySession(users, sessions, map[SessionCookie := IdText(s.id)], now) == Found(u)
    ensures forall decode: Decoder, header: string :: ByToken(decode, users, sessions, header, now) != Found(u)
  {
    ParseIdText(s.id);
    var found := Sessions.Find(sessions, Sessions.SessionId(s.id), now);
    assert Sessions.Selects(Sessions.SessionId(s.id), s, now);
    assert found.Some?;
    assert found.value == s by {
      var t := found.value;
      var i :| 0 <= i < |sessions| && sessions[i] == t;
      var j :| 0 <= j < |sessions| && sessions[j] == s;
      assert t.id == s.id;
      assert i == j;
    }
    FindUserUnique(users, u.id, false, u);
  }

  /** `authenticate_by_session` as written: text in the cookie that is not an
      identifier makes the identifier column raise a validation error, which the
      handler (catching only a missing row and a `ValueError`) lets through. */
  function BySessionAsWritten(users: seq<User>, sessions: seq<Session>, cookies: map<string, string>, now: Time): (r: Channel)
    ensures r == Escaped(MalformedCookie) <==>
              SessionCookie in cookies && cookies[SessionCookie] != "" && ParseId(cookies[SessionCookie]).None?
    ensures r != Escaped(MalformedCookie) ==> r == BySession(users, sessions, cookies, now)
  {
    if SessionCookie in cookies && cookies[SessionCookie] != "" && ParseId(cookies[SessionCookie]).None? then
      Escaped(MalformedCookie)
    else
      BySession(users, sessions, cookies, now)
  }

  /** A tampered cookie ends the request with an exception as written, where the
      intended handler treats it as no user. */
  lemma MalformedCookieEscapesAsWritten(users: seq<User>, sessions: seq<Session>, now: Time)
    ensures BySessionAsWritten(users, sessions, map[SessionCookie := "abc"], now) == Escaped(MalformedCookie)
    ensures BySession(users, sessions, map[SessionCookie := "abc"], now) == NoUser
  {
    assert ParseId("abc").None? by { assert !IsDigit("abc"[0]); }
  }

  /** The lenient token channel and the strict resolver agree on who a token
      names: the strict resolver's user is the token channel's user, and
      conversely. */
  lemma {:induction false} TokenChannelAgreesWithStrict(decode: Decoder, users: seq<User>, sessions: seq<Session>, header: string, now: Time, u: User)
    requires UniqueUserIds(users) && StartsWith(header, BearerPrefix)
    ensures ByToken(decode, users, sessions, header, now) == Found(u) <==>
            Authenticate(decode, users, sessions, header, now) == Authenticated(u, BearerToken(header).value)
  {
    var token := BearerToken(header).value;
    AuthenticatedIff(decode, users, sessions, token, now, u);
    if ByToken(decode, users, sessions, header, now) == Found(u) {
      assert AuthenticateCredentials(decode, users, sessions, token, now) == Authenticated(u, token);
    }
  }

  /** A login's cookie resolves to the login's user for the whole lifetime of
      the session, when no bearer token is sent. */
  lemma {:induction false} LoginCookieResolves(users: seq<User>, sessions: seq<Session>, u: User, sid: Id, token: string,
                                                issued: Time, now: Time, decode: Decoder)
    requires UniqueUserIds(users) && u in users
    requires forall s :: s in sessions ==> s.id != sid
    requires now < issued + SevenDays
    ensures AuthenticateUser(decode, users, sessions + [Sessions.NewSession(sid, u.id, token, issued)], "",
                             map[SessionCookie := IdText(sid)], now) == Found(u)
  {
    var s := Sessions.NewSession(sid, u.id, token, issued);
    var table := sessions + [s];
    ParseIdText(sid);
    Sessions.NewSessionLifetime(sid, u.id, token, issued, now);
    var found := Sessions.Find(table, Sessions.SessionId(sid), now);
    assert s in table;
    assert found.Some?;
    assert found.value == s by {
      assert found.value in table && found.value.id == sid;
    }
    FindUserUnique(users, u.id, false, u);
  }
}
