/** The strict bearer-token authentication class: reading the token out of the
    `Authorization` header, resolving it against the session table and the users,
    and the claims a login issues. The JWT codec is a parameter: `decode` is the
    library's verification at the current instant, `encode` its signing. */
module Authentication {
  import opened Base
  import opened Models
  import Sessions

  // ---------------------------------------------------------------------------
  // Header parsing: `header.startswith('Bearer ')` and `header.split(' ')[1]`.

  const BearerPrefix: string := "Bearer "

  /** Python's `s.split(sep)` with an explicit separator: every occurrence cuts,
      empty pieces are kept. */
  function Split(s: string, sep: char): (pieces: seq<string>)
    ensures |pieces| >= 1
    ensures forall i :: 0 <= i < |pieces| ==> sep !in pieces[i]
    ensures sep in s <==> |pieces| >= 2
    decreases |s|
  {
    if s == [] then [""]
    else
      var rest := Split(s[1..], sep);
      assert sep in s <==> s[0] == sep || sep in s[1..] by {
        assert s == [s[0]] + s[1..];
      }
      if s[0] == sep then [""] + rest
      else
        assert sep !in [s[0]] + rest[0];
        [[s[0]] + rest[0]] + rest[1..]
  }

  /** `sep.join(pieces)`. */
  function Join(pieces: seq<string>, sep: char): string
    requires |pieces| >= 1
  {
    if |pieces| == 1 then pieces[0] else pieces[0] + [sep] + Join(pieces[1..], sep)
  }

  /** Joining the pieces back with the separator gives the original text. */
  lemma {:induction false} SplitJoin(s: string, sep: char)
    ensures Join(Split(s, sep), sep) == s
  {
    if s != [] {
      var rest := Split(s[1..], sep);
      SplitJoin(s[1..], sep);
      if s[0] == sep {
        assert Split(s, sep) == [""] + rest;
        assert ([""] + rest)[1..] == rest;
      } else {
        var pieces := Split(s, sep);
        assert pieces == [[s[0]] + rest[0]] + rest[1..];
        if |rest| == 1 {
          assert Join(pieces, sep) == [s[0]] + rest[0];
        } else {
          assert pieces[1..] == rest[1..];
          assert Join(pieces, sep) == [s[0]] + (rest[0] + [sep] + Join(rest[1..], sep));
        }
        assert s == [s[0]] + s[1..];
      }
    }
  }

  /** Text without the separator, then the separator: the first piece is that text. */
  lemma {:induction false} SplitAfterWord(w: string, sep: char, t: string)
    requires sep !in w
    ensures Split(w + [sep] + t, sep) == [w] + Split(t, sep)
  {
    var s := w + [sep] + t;
    if w == [] {
      assert s[0] == sep && s[1..] == t;
    } else {
      SplitAfterWord(w[1..], sep, t);
      assert s[0] == w[0] && s[1..] == w[1..] + [sep] + t;
      assert [w[0]] + w[1..] == w;
    }
  }

  /** The token the header carries: `None` when the header does not start with
      `"Bearer "` (the anonymous case); otherwise the second space-separated piece,
      which always exists because the prefix itself holds a space. */
  function BearerToken(header: string): (token: Option<string>)
    ensures token.Some? <==> StartsWith(header, BearerPrefix)
    ensures token.Some? ==> ' ' !in token.value
    ensures token.Some? ==> token.value == Split(header[|BearerPrefix|..], ' ')[0]
  {
    if StartsWith(header, BearerPrefix) then
      var rest := header[|BearerPrefix|..];
      assert header == "Bearer" + [' '] + rest by {
        assert header == header[..|BearerPrefix|] + rest;
      }
      SplitAfterWord("Bearer", ' ', rest);
      Some(Split(header, ' ')[1])
    else None
  }

  /** A token without spaces comes back out of `"Bearer " + token` unchanged. */
  lemma BearerTokenOf(token: string)
    requires ' ' !in token
    ensures BearerToken(BearerPrefix + token) == Some(token)
  {
    var h := BearerPrefix + token;
    assert StartsWith(h, BearerPrefix);
    assert h[|BearerPrefix|..] == token;
    var pieces := Split(token, ' ');
    SplitJoin(token, ' ');
    assert |pieces| == 1;
  }

  // ---------------------------------------------------------------------------
  // Claims and the codec.

  /** The token payload. `userId` is absent when the payload has no `user_id` key. */
  datatype Claims = Claims(userId: Option<string>, email: string, issuedAt: Time, expiresAt: Time)

  /** `jwt.decode` at the current instant: the payload, ExpiredSignatureError, or
      any other InvalidTokenError. */
  datatype Decoded = Ok(claims: Claims) | Expired | Invalid

  type Decoder = string -> Decoded

  type Encoder = Claims -> string

  /** `generate_token`'s payload: the user's id as text, the email, issuance now
      and expiry seven days later. */
  function IssueClaims(u: User, now: Time): (c: Claims)
    ensures c.userId.Some? && ParseId(c.userId.value) == Some(u.id) && c.userId.value != ""
    ensures c.email == u.email
    ensures c.issuedAt == now && c.expiresAt - c.issuedAt == SevenDays
  {
    ParseIdText(u.id);
    Claims(Some(IdText(u.id)), u.email, now, now + SevenDays)
  }

  /** `generate_token`: the signed payload. */
  function GenerateToken(encode: Encoder, u: User, now: Time): string {
    encode(IssueClaims(u, now))
  }

  // ---------------------------------------------------------------------------
  // The strict resolver.

  /** The messages of the AuthenticationFailed the class raises. */
  datatype Failure =
      /** empty `user_id`, or no active user with that id */
    | UserNotFound
      /** no fresh session for (user, token), or an expired signature */
    | SessionExpired
      /** any other token error */
    | InvalidToken
      /** the header could not be taken apart, or the id is not an identifier */
    | BadFormat

  /** Exceptions that escape the handlers: the KeyError of a payload without
      `user_id`, and the validation error the identifier column raises on text
      that is not an identifier. */
  datatype PyError = KeyError | InvalidId

  datatype Outcome =
    | Anonymous
    | Authenticated(user: User, token: string)
    | Failed(reason: Failure)
    | Raised(error: PyError)

  /** A fresh session binds this token to this user. */
  predicate HasLiveSession(sessions: seq<Session>, user: Id, token: string, now: Time) {
    exists s :: s in sessions && Sessions.Selects(Sessions.UserToken(user, token), s, now)
  }

  /** `authenticate_credentials`: decode, read `user_id`, look the session up,
      then the active user. A missing `user_id` is a KeyError and text that is
      not an identifier an InvalidId; neither is caught here. */
  function AuthenticateCredentials(decode: Decoder, users: seq<User>, sessions: seq<Session>, token: string, now: Time)
    : (r: Outcome)
    ensures !r.Anonymous?
    ensures decode(token) == Expired ==> r == Failed(SessionExpired)
    ensures decode(token) == Invalid ==> r == Failed(InvalidToken)
    ensures r.Raised? <==> decode(token).Ok? &&
                           (decode(token).claims.userId.None? ||
                            (decode(token).claims.userId.value != "" && ParseId(decode(token).claims.userId.value).None?))
    ensures r.Authenticated? ==>
              r.token == token && r.user in users && r.user.isActive &&
              decode(token).Ok? && decode(token).claims.userId.Some? &&
              ParseId(decode(token).claims.userId.value) == Some(r.user.id) &&
              HasLiveSession(sessions, r.user.id, token, now)
  {
    match decode(token)
    case Expired => Failed(SessionExpired)
    case Invalid => Failed(InvalidToken)
    case Ok(claims) =>
      match claims.userId
      case None => Raised(KeyError)
      case Some(uid) =>
        if uid == "" then Failed(UserNotFound)
        else
          match ParseId(uid)
          case None => Raised(InvalidId)
          case Some(id) =>
            match Sessions.Find(sessions, Sessions.UserToken(id, token), now)
            case None => Failed(SessionExpired)
            case Some(_) =>
              match FindUser(users, id, true)
              case None => Failed(UserNotFound)
              case Some(u) => Authenticated(u, token)
  }

  /** `authenticate` as written: no `"Bearer "` prefix means anonymous, not a
      failure; the handler around the credentials catches IndexError and
      ValueError only, so an identifier that is not one escapes. */
  function AuthenticateAsWritten(decode: Decoder, users: seq<User>, sessions: seq<Session>, header: string, now: Time)
    : (r: Outcome)
    ensures r.Anonymous? <==> !StartsWith(header, BearerPrefix)
    ensures r.Raised? <==> StartsWith(header, BearerPrefix) &&
                           AuthenticateCredentials(decode, users, sessions, BearerToken(header).value, now).Raised?
  {
    match BearerToken(header)
    case None => Anonymous
    case Some(token) => AuthenticateCredentials(decode, users, sessions, token, now)
  }

  /** `authenticate` as its handler intends: an identifier that is not one is the
      bad-format failure, so only a payload without `user_id` escapes. */
  function Authenticate(decode: Decoder, users: seq<User>, sessions: seq<Session>, header: string, now: Time)
    : (r: Outcome)
    ensures r.Anonymous? <==> !StartsWith(header, BearerPrefix)
    ensures r.Raised? ==> r.error == KeyError
    ensures r.Authenticated? ==> BearerToken(header) == Some(r.token) && r.user in users && r.user.isActive &&
                                 HasLiveSession(sessions, r.user.id, r.token, now)
    ensures AuthenticateAsWritten(decode, users, sessions, header, now) != Raised(InvalidId) ==>
              r == AuthenticateAsWritten(decode, users, sessions, header, now)
  {
    var r := AuthenticateAsWritten(decode, users, sessions, header, now);
    if r == Raised(InvalidId) then Failed(BadFormat) else r
  }

  /** The two differ exactly on a token whose `user_id` is not an identifier:
      as written the request raises (a server error), as intended it is refused
      with the bad-format failure. */
  lemma MalformedIdEscapesAsWritten(decode: Decoder, users: seq<User>, sessions: seq<Session>, token: string, now: Time)
    requires ' ' !in token
    requires decode(token) == Ok(Claims(Some("abc"), "a@example.com", now, now + SevenDays))
    ensures AuthenticateAsWritten(decode, users, sessions, BearerPrefix + token, now) == Raised(InvalidId)
    ensures Authenticate(decode, users, sessions, BearerPrefix + token, now) == Failed(BadFormat)
  {
    BearerTokenOf(token);
    assert ParseId("abc").None? by {
      assert !IsDigit("abc"[0]);
    }
  }

  /** Success in both directions: with unique user ids, the strict resolver yields
      (u, token) exactly when the token decodes to a non-empty `user_id` naming u,
      a fresh session binds the token to u, and u is an active user. */
  lemma AuthenticatedIff(decode: Decoder, users: seq<User>, sessions: seq<Session>, token: string, now: Time, u: User)
    requires UniqueUserIds(users)
    ensures AuthenticateCredentials(decode, users, sessions, token, now) == Authenticated(u, token) <==>
              decode(token).Ok? && decode(token).claims.userId.Some? &&
              decode(token).claims.userId.value != "" &&
              ParseId(decode(token).claims.userId.value) == Some(u.id) &&
              HasLiveSession(sessions, u.id, token, now) && u in users && u.isActive
  {
    if decode(token).Ok? && decode(token).claims.userId.Some? && decode(token).claims.userId.value != "" &&
       ParseId(decode(token).claims.userId.value) == Some(u.id) &&
       HasLiveSession(sessions, u.id, token, now) && u in users && u.isActive
    {
      var s :| s in sessions && Sessions.Selects(Sessions.UserToken(u.id, token), s, now);
      assert Sessions.Find(sessions, Sessions.UserToken(u.id, token), now).Some?;
      FindUserUnique(users, u.id, true, u);
    }
  }

  /** A login followed by a request carrying its token: with the session the login
      inserted and a codec that reads back what it signed, the strict resolver
      yields exactly that user and token until the seventh day. */
  lemma {:induction false} LoginThenAuthenticate(
    decode: Decoder, encode: Encoder, users: seq<User>, sessions: seq<Session>,
    u: User, sid: Id, issued: Time, now: Time)
    requires UniqueUserIds(users) && u in users && u.isActive
    requires decode(GenerateToken(encode, u, issued)) == Ok(IssueClaims(u, issued))
    requires ' ' !in GenerateToken(encode, u, issued)
    requires now < issued + SevenDays
    ensures Authenticate(decode, users, sessions + [Sessions.NewSession(sid, u.id, GenerateToken(encode, u, issued), issued)],
                         BearerPrefix + GenerateToken(encode, u, issued), now)
            == Authenticated(u, GenerateToken(encode, u, issued))
  {
    var token := GenerateToken(encode, u, issued);
    var s := Sessions.NewSession(sid, u.id, token, issued);
    var table := sessions + [s];
    BearerTokenOf(token);
    Sessions.NewSessionLifetime(sid, u.id, token, issued, now);
    assert s in table;
    AuthenticatedIff(decode, users, table, token, now, u);
  }

  /** Once the sessions carrying a token are revoked (logout's
      `filter(token=t, is_active=True)`), that token is refused as an expired
      session, whoever it names. */
  lemma RevokedTokenRejected(decode: Decoder, users: seq<User>, sessions: seq<Session>, token: string, now: Time)
    requires ' ' !in token
    requires decode(token).Ok? && decode(token).claims.userId.Some?
    requires decode(token).claims.userId.value != "" && ParseId(decode(token).claims.userId.value).Some?
    ensures Authenticate(decode, users, Sessions.Revoke(sessions, Sessions.ActiveWithToken(token)), BearerPrefix + token, now)
            == Failed(SessionExpired)
  {
    BearerTokenOf(token);
    var id := ParseId(decode(token).claims.userId.value).value;
    Sessions.RevokedNotFound(sessions, Sessions.ActiveWithToken(token), Sessions.UserToken(id, token), now);
  }
}
