/** The session table as values: the lookups the resolvers run against it, and
    the revocations the views run (`filter(...).update(is_active=False)`), with
    what each promises. */
module Sessions {
  import opened Base
  import opened Models

  // ---------------------------------------------------------------------------
  // Lookups.

  /** The two session lookups: by (user, token) for a bearer token, by id for the
      `session_id` cookie. Both apply the freshness filter `is_active=True,
      expires_at__gt=now`. */
  datatype Lookup = UserToken(user: Id, token: string) | SessionId(id: Id)

  predicate Selects(q: Lookup, s: Session, now: Time) {
    IsLive(s, now) &&
    match q
    case UserToken(user, token) => s.user == user && s.token == token
    case SessionId(id) => s.id == id
  }

  /** The first session the lookup selects, if any. */
  function Find(sessions: seq<Session>, q: Lookup, now: Time): (r: Option<Session>)
    ensures r.Some? ==> r.value in sessions && Selects(q, r.value, now)
    ensures r.None? <==> forall s :: s in sessions ==> !Selects(q, s, now)
  {
    if sessions == [] then None
    else if Selects(q, sessions[0], now) then Some(sessions[0])
    else
      var r := Find(sessions[1..], q, now);
      assert forall s :: s in sessions ==> s == sessions[0] || s in sessions[1..];
      r
  }

  /** `create_session`: the row a successful login inserts, bound to the issued
      token, active, and expiring seven days after issuance. */
  function NewSession(id: Id, user: Id, token: string, now: Time): (s: Session)
    ensures s.id == id && s.user == user && s.token == token
    ensures s.isActive && s.createdAt == now && s.expiresAt - s.createdAt == SevenDays
  {
    Session(id, user, token, now, now + SevenDays, true)
  }

  /** A new session passes its own lookups for the whole seven days after
      issuance and no longer from the instant it expires. */
  lemma NewSessionLifetime(id: Id, user: Id, token: string, issued: Time, now: Time)
    ensures Selects(UserToken(user, token), NewSession(id, user, token, issued), now) <==> now < issued + SevenDays
    ensures Selects(SessionId(id), NewSession(id, user, token, issued), now) <==> now < issued + SevenDays
    ensures IsExpired(NewSession(id, user, token, issued), now) <==> now > issued + SevenDays
  {
  }

  // ---------------------------------------------------------------------------
  // Revocation.

  /** The querysets the views deactivate. */
  datatype Filter =
      /** logout: `filter(token=t, is_active=True)` */
    | ActiveWithToken(token: string)
      /** logout's cookie branch: `filter(id=sid)` */
    | WithId(id: Id)
      /** password change: `filter(user=u, is_active=True).exclude(token=current)` */
    | ActiveOfUserExcept(user: Id, keep: string)
      /** admin bulk deactivation: `filter(user_id=u, is_active=True)` */
    | ActiveOfUser(user: Id)

  predicate Matches(f: Filter, s: Session) {
    match f
    case ActiveWithToken(token) => s.isActive && s.token == token
    case WithId(id) => s.id == id
    case ActiveOfUserExcept(user, keep) => s.isActive && s.user == user && s.token != keep
    case ActiveOfUser(user) => s.isActive && s.user == user
  }

  /** Filters that select only active rows. */
  predicate ActiveOnly(f: Filter) {
    !f.WithId?
  }

  /** One row after `update(is_active=False)` over the filter. */
  function Updated(f: Filter, s: Session): Session {
    if Matches(f, s) then s.(isActive := false) else s
  }

  /** The whole table after `update(is_active=False)` over the filter: the rows the
      filter selects are deactivated, every other row and every other column is
      left as it was. */
  function Revoke(sessions: seq<Session>, f: Filter): (r: seq<Session>)
    ensures |r| == |sessions|
    ensures forall i :: 0 <= i < |sessions| ==> r[i] == Updated(f, sessions[i])
  {
    if sessions == [] then [] else Revoke(sessions[..|sessions| - 1], f) + [Updated(f, sessions[|sessions| - 1])]
  }

  /** The row count `update()` reports: how many rows the filter selects. */
  function Count(sessions: seq<Session>, f: Filter): (n: nat)
    ensures n <= |sessions|
    ensures n == 0 <==> forall i :: 0 <= i < |sessions| ==> !Matches(f, sessions[i])
  {
    if sessions == [] then 0
    else Count(sessions[..|sessions| - 1], f) + (if Matches(f, sessions[|sessions| - 1]) then 1 else 0)
  }

  /** How many rows go from active to inactive between two versions of the table. */
  function Deactivations(before: seq<Session>, after: seq<Session>): (n: nat)
    requires |before| == |after|
    ensures n <= |before|
  {
    if before == [] then 0
    else
      var k := |before| - 1;
      Deactivations(before[..k], after[..k]) + (if before[k].isActive && !after[k].isActive then 1 else 0)
  }

  /** The row-by-row pass `update(is_active=False)` makes over the table: every
      row the filter selects is deactivated and counted. */
  method RevokeRows(sessions: seq<Session>, f: Filter) returns (table: seq<Session>, count: nat)
    ensures table == Revoke(sessions, f)
    ensures count == Count(sessions, f)
  {
    table := sessions;
    count := 0;
    var i := 0;
    while i < |table|
      invariant 0 <= i <= |table| == |sessions|
      invariant forall k :: 0 <= k < i ==> table[k] == Updated(f, sessions[k])
      invariant forall k :: i <= k < |table| ==> table[k] == sessions[k]
      invariant count == Count(sessions[..i], f)
    {
      CountStep(sessions, f, i);
      if Matches(f, table[i]) {
        count := count + 1;
      }
      table := table[i := Updated(f, table[i])];
      i := i + 1;
    }
    assert sessions[..i] == sessions;
    assert forall k :: 0 <= k < |table| ==> table[k] == Revoke(sessions, f)[k];
  }

  /** Counting one more row of the table. */
  lemma CountStep(sessions: seq<Session>, f: Filter, i: nat)
    requires i < |sessions|
    ensures Count(sessions[..i + 1], f) == Count(sessions[..i], f) + (if Matches(f, sessions[i]) then 1 else 0)
  {
    assert sessions[..i + 1][..i] == sessions[..i];
  }

  lemma RevokePrefix(sessions: seq<Session>, f: Filter, k: nat)
    requires k <= |sessions|
    ensures Revoke(sessions[..k], f) == Revoke(sessions, f)[..k]
  {
  }

  /** After the update nothing the filter selects is active any more; for the
      filters that select active rows only, nothing is selected at all. */
  lemma RevokeLeavesNothingSelected(sessions: seq<Session>, f: Filter)
    ensures forall i :: 0 <= i < |sessions| && Matches(f, sessions[i]) ==> !Revoke(sessions, f)[i].isActive
    ensures ActiveOnly(f) ==> Count(Revoke(sessions, f), f) == 0
  {
  }

  /** Running the same revocation twice leaves the table as the first run did. */
  lemma RevokeIdempotent(sessions: seq<Session>, f: Filter)
    ensures Revoke(Revoke(sessions, f), f) == Revoke(sessions, f)
  {
    var once := Revoke(sessions, f);
    var twice := Revoke(once, f);
    assert forall i :: 0 <= i < |sessions| ==> twice[i] == once[i];
  }

  /** Revocation never reactivates a session, and never touches a row the filter
      does not select. */
  lemma RevokeOnlyDeactivates(sessions: seq<Session>, f: Filter, i: nat)
    requires i < |sessions|
    ensures Revoke(sessions, f)[i].isActive ==> sessions[i].isActive
    ensures !Matches(f, sessions[i]) ==> Revoke(sessions, f)[i] == sessions[i]
    ensures Revoke(sessions, f)[i].(isActive := sessions[i].isActive) == sessions[i]
  {
  }

  /** For the filters that select active rows, the count the update reports is
      exactly the number of rows it moved from active to inactive. */
  lemma {:induction false} CountIsDeactivations(sessions: seq<Session>, f: Filter)
    requires ActiveOnly(f)
    ensures Count(sessions, f) == Deactivations(sessions, Revoke(sessions, f))
  {
    if sessions != [] {
      var k := |sessions| - 1;
      CountIsDeactivations(sessions[..k], f);
      RevokePrefix(sessions, f, k);
    }
  }

  /** Two bulk deactivations of one user, one after the other, report counts that
      add up to the number of that user's active sessions before the first. */
  lemma SequentialBulkCounts(sessions: seq<Session>, user: Id)
    ensures Count(sessions, ActiveOfUser(user)) + Count(Revoke(sessions, ActiveOfUser(user)), ActiveOfUser(user))
            == Count(sessions, ActiveOfUser(user))
  {
    RevokeLeavesNothingSelected(sessions, ActiveOfUser(user));
  }

  /** The password-change revocation: the user's sessions carrying the current
      token and all other users' sessions keep their state; every other active
      session of the user ends inactive. */
  lemma RevokeOthersKeepsCurrent(sessions: seq<Session>, user: Id, current: string, i: nat)
    requires i < |sessions|
    ensures sessions[i].user != user ==> Revoke(sessions, ActiveOfUserExcept(user, current))[i] == sessions[i]
    ensures sessions[i].token == current ==> Revoke(sessions, ActiveOfUserExcept(user, current))[i] == sessions[i]
    ensures sessions[i].user == user && sessions[i].token != current ==>
              !Revoke(sessions, ActiveOfUserExcept(user, current))[i].isActive
  {
  }

  /** A revoked session no longer passes either lookup. */
  lemma RevokedNotFound(sessions: seq<Session>, f: Filter, q: Lookup, now: Time)
    requires forall s :: s in sessions && Selects(q, s, now) ==> Matches(f, s)
    ensures Find(Revoke(sessions, f), q, now).None?
  {
    var r := Revoke(sessions, f);
    forall s | s in r
      ensures !Selects(q, s, now)
    {
      var i :| 0 <= i < |r| && r[i] == s;
      assert r[i] == Updated(f, sessions[i]);
    }
  }
}
