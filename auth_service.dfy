/** `AuthService` of server/auth-service.ts: a `users` table and a `sessions`
    table. Login records the login time and opens a 24-hour session;
    validation needs a verified token whose session is still live and whose
    user is active; logout and cleanup delete sessions. bcrypt, JWT and
    `crypto.randomUUID` are parameters. */
module AuthService {
  import opened Text

  datatype User = User(id: int, username: string, password: string, isActive: bool, lastLogin: Option<int>)

  /** A session row; `expiresAt` in milliseconds. */
  datatype Session = Session(id: string, userId: int, expiresAt: int)

  /** The token payload `{ userId, sessionId, username }`. */
  datatype SessionClaims = SessionClaims(userId: int, sessionId: string, username: string)

  datatype LoginOutcome = LoginOutcome(user: User, token: string, sessionId: string)

  /** Which of `login`'s three queries throws, if any: the user select, the
      `lastLogin` update or the session insert. `login` has no `catch`, so
      the error reaches the caller. */
  datatype LoginFault = NoFault | SelectFault | UpdateFault | InsertFault

  /** `24 * 60 * 60 * 1000`. */
  const SessionDuration: int := 24 * 60 * 60 * 1000

  /** `select ... where username = ? and isActive = true`, first row. */
  function FindActiveUserByName(users: seq<User>, username: string): (r: Option<User>)
    ensures r.Some? ==> r.value in users && r.value.username == username && r.value.isActive
    ensures r.None? ==> forall u :: u in users && u.username == username ==> !u.isActive
  {
    if users == [] then None
    else if users[0].username == username && users[0].isActive then Some(users[0])
    else FindActiveUserByName(users[1..], username)
  }

  /** `select ... where id = ? and isActive = true`, first row. */
  function FindActiveUserById(users: seq<User>, id: int): (r: Option<User>)
    ensures r.Some? ==> r.value in users && r.value.id == id && r.value.isActive
    ensures r.None? ==> forall u :: u in users && u.id == id ==> !u.isActive
  {
    if users == [] then None
    else if users[0].id == id && users[0].isActive then Some(users[0])
    else FindActiveUserById(users[1..], id)
  }

  /** `select ... where id = ? and expiresAt > now`, first row. */
  function FindLiveSession(sessions: seq<Session>, id: string, now: int): (r: Option<Session>)
    ensures r.Some? ==> r.value in sessions && r.value.id == id && r.value.expiresAt > now
    ensures r.None? ==> forall s :: s in sessions && s.id == id ==> s.expiresAt <= now
  {
    if sessions == [] then None
    else if sessions[0].id == id && sessions[0].expiresAt > now then Some(sessions[0])
    else FindLiveSession(sessions[1..], id, now)
  }

  /** `validateSession`: only the token's `sessionId` is consulted; the user
      comes from the session row. Any verification failure gives null. */
  function Validate(users: seq<User>, sessions: seq<Session>, token: string, now: int,
                    verify: string -> Option<SessionClaims>): (r: Option<User>)
    ensures r.Some? <==>
      && verify(token).Some?
      && FindLiveSession(sessions, verify(token).value.sessionId, now).Some?
      && FindActiveUserById(users, FindLiveSession(sessions, verify(token).value.sessionId, now).value.userId).Some?
    ensures r.Some? ==> r.value in users && r.value.isActive
    ensures r.Some? ==> r.value.id == FindLiveSession(sessions, verify(token).value.sessionId, now).value.userId
  {
    match verify(token)
    case None => None
    case Some(claims) =>
      match FindLiveSession(sessions, claims.sessionId, now)
      case None => None
      case Some(session) => FindActiveUserById(users, session.userId)
  }

  /** `update users set lastLogin = now where id = ?`. */
  function TouchLastLogin(users: seq<User>, id: int, now: int): (r: seq<User>)
    ensures |r| == |users|
    ensures forall i :: 0 <= i < |r| && users[i].id == id ==> r[i] == users[i].(lastLogin := Some(now))
    ensures forall i :: 0 <= i < |r| && users[i].id != id ==> r[i] == users[i]
  {
    if users == [] then []
    else
      [if users[0].id == id then users[0].(lastLogin := Some(now)) else users[0]]
      + TouchLastLogin(users[1..], id, now)
  }

  /** `delete from sessions where id = ?`. */
  function WithoutSession(sessions: seq<Session>, id: string): (r: seq<Session>)
    ensures forall s :: s in r <==> s in sessions && s.id != id
    ensures |r| <= |sessions|
  {
    if sessions == [] then []
    else (if sessions[0].id != id then [sessions[0]] else []) + WithoutSession(sessions[1..], id)
  }

  /** `delete from sessions where now > expiresAt`: what stays. */
  function Unexpired(sessions: seq<Session>, now: int): (r: seq<Session>)
    ensures forall s :: s in r <==> s in sessions && s.expiresAt >= now
    ensures |r| <= |sessions|
  {
    if sessions == [] then []
    else (if !(now > sessions[0].expiresAt) then [sessions[0]] else []) + Unexpired(sessions[1..], now)
  }

  predicate UserIdsDistinct(users: seq<User>)
  {
    forall i, j :: 0 <= i < j < |users| ==> users[i].id != users[j].id
  }

  predicate SessionIdsDistinct(sessions: seq<Session>)
  {
    forall i, j :: 0 <= i < j < |sessions| ==> sessions[i].id != sessions[j].id
  }

  class AuthService {
    var users: seq<User>
    var sessions: seq<Session>

    /** Primary keys: user ids and session ids are distinct. */
    ghost predicate Valid()
      reads this
    {
      UserIdsDistinct(users) && SessionIdsDistinct(sessions)
    }

    constructor(users0: seq<User>)
      requires UserIdsDistinct(users0)
      ensures Valid()
      ensures users == users0 && sessions == []
    {
      users := users0;
      sessions := [];
    }

    /** `login`: null unless an active user has this name and the password
        verifies; then that user's `lastLogin` becomes `now`, a session
        `sessionId` (the fresh `randomUUID`) expiring at `now + 24 h` is
        added, and the token signs the user id, session id and name. The
        returned user is the row read before the update.

        A query that throws makes `login` throw (`threw`). The update runs
        before the insert, so a failed insert leaves `lastLogin` updated
        with no session. */
    method Login(username: string, password: string, now: int, sessionId: string,
                 compare: (string, string) -> bool, sign: SessionClaims -> string, fault: LoginFault)
      returns (r: Option<LoginOutcome>, threw: bool)
      requires Valid()
      requires forall s :: s in sessions ==> s.id != sessionId
      modifies this
      ensures Valid()
      ensures threw ==> r.None?
      ensures fault.SelectFault? ==> threw && users == old(users) && sessions == old(sessions)
      ensures !fault.SelectFault? ==>
        var found := FindActiveUserByName(old(users), username);
        var accepted := found.Some? && compare(password, found.value.password);
        && (threw <==> accepted && !fault.NoFault?)
        && (r.Some? <==> accepted && fault.NoFault?)
        && (!accepted ==> users == old(users) && sessions == old(sessions))
        && (threw && fault.UpdateFault? ==> users == old(users) && sessions == old(sessions))
        && (threw && fault.InsertFault? ==>
              users == TouchLastLogin(old(users), found.value.id, now) && sessions == old(sessions))
      ensures r.Some? ==>
        var u := FindActiveUserByName(old(users), username).value;
        && r.value == LoginOutcome(u, sign(SessionClaims(u.id, sessionId, u.username)), sessionId)
        && users == TouchLastLogin(old(users), u.id, now)
        && sessions == old(sessions) + [Session(sessionId, u.id, now + SessionDuration)]
    {
      if fault.SelectFault? {
        return None, true;
      }
      var found := FindActiveUserByName(users, username);
      if found.None? || !compare(password, found.value.password) {
        return None, false;
      }
      var user := found.value;
      if fault.UpdateFault? {
        return None, true;
      }
      users := TouchLastLogin(users, user.id, now);
      if fault.InsertFault? {
        return None, true;
      }
      sessions := sessions + [Session(sessionId, user.id, now + SessionDuration)];
      var token := sign(SessionClaims(user.id, sessionId, user.username));
      r, threw := Some(LoginOutcome(user, token, sessionId)), false;
    }

    /** `validateSession`: a failing database query is caught like a failed
        verification, and answers null. */
    function ValidateSession(token: string, now: int, verify: string -> Option<SessionClaims>,
                             fails: bool): (r: Option<User>)
      reads this
      ensures fails ==> r.None?
      ensures !fails ==> r == Validate(users, sessions, token, now, verify)
      ensures r.Some? ==> r.value in users && r.value.isActive
      ensures verify(token).None? ==> r.None?
    {
      if fails then None else Validate(users, sessions, token, now, verify)
    }

    method Logout(sessionId: string)
      requires Valid()
      modifies this
      ensures Valid()
      ensures users == old(users)
      ensures sessions == WithoutSession(old(sessions), sessionId)
    {
      WithoutSessionKeepsDistinct(sessions, sessionId);
      sessions := WithoutSession(sessions, sessionId);
    }

    method CleanExpiredSessions(now: int)
      requires Valid()
      modifies this
      ensures Valid()
      ensures users == old(users)
      ensures sessions == Unexpired(old(sessions), now)
    {
      UnexpiredKeepsDistinct(sessions, now);
      sessions := Unexpired(sessions, now);
    }
  }

  lemma {:induction false} WithoutSessionKeepsDistinct(sessions: seq<Session>, id: string)
    requires SessionIdsDistinct(sessions)
    ensures SessionIdsDistinct(WithoutSession(sessions, id))
  {
    if sessions != [] {
      var tail := sessions[1..];
      assert SessionIdsDistinct(tail);
      WithoutSessionKeepsDistinct(tail, id);
      var r := WithoutSession(tail, id);
      forall s | s in r ensures s.id != sessions[0].id {
        var j :| 0 <= j < |tail| && tail[j] == s;
        assert sessions[j + 1] == s;
      }
    }
  }

  lemma {:induction false} UnexpiredKeepsDistinct(sessions: seq<Session>, now: int)
    requires SessionIdsDistinct(sessions)
    ensures SessionIdsDistinct(Unexpired(sessions, now))
  {
    if sessions != [] {
      var tail := sessions[1..];
      assert SessionIdsDistinct(tail);
      UnexpiredKeepsDistinct(tail, now);
      var r := Unexpired(tail, now);
      forall s | s in r ensures s.id != sessions[0].id {
        var j :| 0 <= j < |tail| && tail[j] == s;
        assert sessions[j + 1] == s;
      }
    }
  }

  // ---------------------------------------------------------------------------
  // Properties relating login, validation, logout and cleanup

  lemma {:induction false} FindLiveSessionUnexpired(sessions: seq<Session>, id: string, now: int, later: int)
    requires now <= later
    ensures FindLiveSession(Unexpired(sessions, now), id, later) == FindLiveSession(sessions, id, later)
  {
    if sessions != [] {
      var h, t := sessions[0], sessions[1..];
      FindLiveSessionUnexpired(t, id, now, later);
      if now > h.expiresAt {
        assert Unexpired(sessions, now) == Unexpired(t, now);
      } else {
        var r := Unexpired(sessions, now);
        assert r == [h] + Unexpired(t, now);
        assert r[0] == h && r[1..] == Unexpired(t, now);
      }
    }
  }

  /** Cleanup at `now` removes only sessions that validation at `now` or
      later would refuse anyway, so no validation outcome changes. */
  lemma CleanupKeepsValidation(users: seq<User>, sessions: seq<Session>, token: string,
                               now: int, later: int, verify: string -> Option<SessionClaims>)
    requires now <= later
    ensures Validate(users, Unexpired(sessions, now), token, later, verify)
         == Validate(users, sessions, token, later, verify)
  {
    if verify(token).Some? {
      FindLiveSessionUnexpired(sessions, verify(token).value.sessionId, now, later);
    }
  }

  /** After logout, a token for that session is refused. */
  lemma LogoutRevokes(users: seq<User>, sessions: seq<Session>, token: string, now: int,
                      verify: string -> Option<SessionClaims>)
    requires verify(token).Some?
    ensures Validate(users, WithoutSession(sessions, verify(token).value.sessionId), token, now, verify).None?
  {
  }

  lemma {:induction false} FindLiveSessionWithout(sessions: seq<Session>, id: string, other: string, now: int)
    requires other != id
    ensures FindLiveSession(WithoutSession(sessions, id), other, now) == FindLiveSession(sessions, other, now)
  {
    if sessions != [] {
      var h, t := sessions[0], sessions[1..];
      FindLiveSessionWithout(t, id, other, now);
      if h.id == id {
        assert WithoutSession(sessions, id) == WithoutSession(t, id);
      } else {
        var r := WithoutSession(sessions, id);
        assert r == [h] + WithoutSession(t, id);
        assert r[0] == h && r[1..] == WithoutSession(t, id);
      }
    }
  }

  /** Logout of one session leaves every token of another session as it was. */
  lemma LogoutKeepsOtherSessions(users: seq<User>, sessions: seq<Session>, id: string, token: string,
                                 now: int, verify: string -> Option<SessionClaims>)
    requires verify(token).Some? && verify(token).value.sessionId != id
    ensures Validate(users, WithoutSession(sessions, id), token, now, verify)
         == Validate(users, sessions, token, now, verify)
  {
    FindLiveSessionWithout(sessions, id, verify(token).value.sessionId, now);
  }

  /** Logging out twice is the same as logging out once. */
  lemma {:induction false} LogoutIdempotent(sessions: seq<Session>, id: string)
    ensures WithoutSession(WithoutSession(sessions, id), id) == WithoutSession(sessions, id)
  {
    if sessions != [] {
      var h, t := sessions[0], sessions[1..];
      LogoutIdempotent(t, id);
      var once := WithoutSession(sessions, id);
      if h.id == id {
        assert once == WithoutSession(t, id);
      } else {
        assert once == [h] + WithoutSession(t, id);
        assert once[0] == h && once[1..] == WithoutSession(t, id);
      }
    }
  }

  lemma {:induction false} FindLiveSessionAppended(sessions: seq<Session>, s: Session, now: int)
    requires forall x :: x in sessions ==> x.id != s.id
    requires s.expiresAt > now
    ensures FindLiveSession(sessions + [s], s.id, now) == Some(s)
  {
    if sessions == [] {
      assert [] + [s] == [s];
    } else {
      assert (sessions + [s])[1..] == sessions[1..] + [s];
      FindLiveSessionAppended(sessions[1..], s, now);
    }
  }

  lemma {:induction false} FindActiveUserByIdUnique(users: seq<User>, i: int)
    requires UserIdsDistinct(users)
    requires 0 <= i < |users| && users[i].isActive
    ensures FindActiveUserById(users, users[i].id) == Some(users[i])
  {
    if i > 0 {
      assert UserIdsDistinct(users[1..]);
      assert users[1..][i - 1] == users[i];
      FindActiveUserByIdUnique(users[1..], i - 1);
    }
  }

  /** A token issued by a successful login validates, for the next 24 hours,
      to the user who logged in (with the new `lastLogin`), provided `verify`
      accepts what `sign` produced. */
  lemma LoginThenValidate(users: seq<User>, sessions: seq<Session>, username: string, sessionId: string,
                          now: int, later: int,
                          sign: SessionClaims -> string, verify: string -> Option<SessionClaims>)
    requires UserIdsDistinct(users)
    requires FindActiveUserByName(users, username).Some?
    requires forall s :: s in sessions ==> s.id != sessionId
    requires forall c :: verify(sign(c)) == Some(c)
    requires now <= later < now + SessionDuration
    ensures var u := FindActiveUserByName(users, username).value;
      var token := sign(SessionClaims(u.id, sessionId, u.username));
      Validate(TouchLastLogin(users, u.id, now),
               sessions + [Session(sessionId, u.id, now + SessionDuration)], token, later, verify)
        == Some(u.(lastLogin := Some(now)))
  {
    var u := FindActiveUserByName(users, username).value;
    var s := Session(sessionId, u.id, now + SessionDuration);
    FindLiveSessionAppended(sessions, s, later);
    var touched := TouchLastLogin(users, u.id, now);
    var i :| 0 <= i < |users| && users[i] == u;
    assert touched[i] == u.(lastLogin := Some(now));
    assert UserIdsDistinct(touched) by {
      forall a, b | 0 <= a < b < |touched| ensures touched[a].id != touched[b].id {
        assert touched[a].id == users[a].id && touched[b].id == users[b].id;
      }
    }
    FindActiveUserByIdUnique(touched, i);
  }
}
