/** The authentication service as its methods change the session store when nothing interferes,
    and how these uninterrupted calls appear among the steps of the interleaved system. */
module AuthService {
  import opened Rbac
  import opened Sessions
  import opened SessionSafety

  datatype Answer = Pair(access: Token, refresh: Token) | InvalidCredentials | UserDisabled | InvalidToken
      | SessionExpired | RefreshReused
                  | Identity(uid: nat, sid: string)

  /** A pair signed for one session: an access and a refresh token with new identifiers. */
  predicate IsPair(ttl: Ttl, jti: nat, now: nat, uid: nat, sid: string, version: nat, answer: Answer) {
    && answer.Pair?
    && answer.access == Token(Access, sid, sid, uid, version, jti, now, now + ttl.access)
    && answer.refresh == Token(Refresh, sid, sid, uid, version, jti + 1, now, now + ttl.refresh)
  }

  class SessionStore {
    var sessions: map<string, Session>

    constructor ()
      ensures sessions == map[]
    {
      sessions := map[];
    }

    method Create(sid: string, uid: nat, current: Token)
      modifies this
      ensures sessions == old(sessions)[sid := Session(uid, current)]
    {
      sessions := sessions[sid := Session(uid, current)];
    }

    /** Compare-and-swap; false when the session is missing or holds another token. */
    method Rotate(sid: string, expected: Token, next: Token) returns (ok: bool)
      modifies this
      ensures ok == (sid in old(sessions) && old(sessions)[sid].current == expected)
      ensures sessions == if ok then old(sessions)[sid := old(sessions)[sid].(current := next)] else old(sessions)
    {
      ok := sid in sessions && sessions[sid].current == expected;
      if ok {
        sessions := sessions[sid := sessions[sid].(current := next)];
      }
    }

    method Delete(sid: string)
      modifies this
      ensures sessions == old(sessions) - {sid}
    {
      sessions := sessions - {sid};
    }

    /** Every session of the user, one after the other. */
    method DeleteUser(uid: nat)
      modifies this
      ensures sessions == map sid | sid in old(sessions) && old(sessions)[sid].uid != uid :: old(sessions)[sid]
    {
      var left := sessions.Keys;
      while left != {}
        invariant left <= old(sessions).Keys
        invariant sessions == map sid | sid in old(sessions)
            && (sid in left || old(sessions)[sid].uid != uid) :: old(sessions)[sid]
        decreases left
      {
        var sid :| sid in left;
        left := left - {sid};
        if sessions[sid].uid == uid {
          sessions := sessions - {sid};
        }
      }
    }
  }

  class Service {
    const store: SessionStore
    const ttl: Ttl
    var nextJti: nat

    constructor (store: SessionStore, ttl: Ttl)
      ensures this.store == store && this.ttl == ttl && nextJti == 0
    {
      this.store, this.ttl, nextJti := store, ttl, 0;
    }

    /** Sign a pair for one session. */
    method Issue(now: nat, uid: nat, sid: string, version: nat) returns (access: Token, refresh: Token)
      modifies this
      ensures access == Token(Access, sid, sid, uid, version, old(nextJti), now, now + ttl.access)
      ensures refresh == Token(Kind.Refresh, sid, sid, uid, version, old(nextJti) + 1, now, now + ttl.refresh)
      ensures nextJti == old(nextJti) + 2
    {
      access := Token(Access, sid, sid, uid, version, nextJti, now, now + ttl.access);
      refresh := Token(Kind.Refresh, sid, sid, uid, version, nextJti + 1, now, now + ttl.refresh);
      nextJti := nextJti + 2;
    }

    /** Login of the account `uid`, if there is one, with a password that does or does not match. */
    method Login(db: Db, now: nat, uid: nat, matches: bool, sid: string) returns (answer: Answer)
      requires sid != ""
      modifies this, store
      ensures answer.Pair? <==> uid in db.users && matches && db.users[uid].status.Active?
      ensures answer.Pair? ==>
        && store.sessions == old(store.sessions)[sid := Session(uid, answer.refresh)]
        && IsPair(ttl, old(nextJti), now, uid, sid, EffectiveVersion(db.users[uid]), answer)
        && (ttl.access > 0 ==> Usable(db, answer.access, Access, now))
        && (ttl.refresh > 0 ==> Usable(db, answer.refresh, Kind.Refresh, now))
      ensures !answer.Pair? ==> store.sessions == old(store.sessions)
      ensures !answer.Pair? ==> answer == if uid in db.users && matches then UserDisabled else InvalidCredentials
    {
      if uid !in db.users || !matches {
        return InvalidCredentials;
      }
      if !db.users[uid].status.Active? {
        return UserDisabled;
      }
      var access, refresh := Issue(now, uid, sid, EffectiveVersion(db.users[uid]));
      store.Create(sid, uid, refresh);
      answer := Pair(access, refresh);
    }

    /** Refresh: the presented token is exchanged, refused without effect, or found reused, and then
        its session is gone. */
    method Refresh(db: Db, now: nat, raw: Token) returns (answer: Answer)
      modifies this, store
      ensures !Usable(db, raw, Kind.Refresh, now) ==> answer == InvalidToken && store.sessions == old(store.sessions)
      ensures Usable(db, raw, Kind.Refresh, now) ==>
        if raw.sid in old(store.sessions) && old(store.sessions)[raw.sid].current == raw then
          && answer.Pair?
          && store.sessions == old(store.sessions)[raw.sid := old(store.sessions)[raw.sid].(current := answer.refresh)]
          && IsPair(ttl, old(nextJti), now, raw.uid, raw.sid, raw.version, answer)
          && (ttl.access > 0 ==> Usable(db, answer.access, Access, now))
          && (ttl.refresh > 0 ==> Usable(db, answer.refresh, Kind.Refresh, now))
        else answer == RefreshReused && store.sessions == old(store.sessions) - {raw.sid}
    {
      if !Parses(raw, Kind.Refresh, now) || !UserAccepts(db, raw) {
        return InvalidToken;
      }
      var access, refresh := Issue(now, raw.uid, raw.sid, EffectiveVersion(db.users[raw.uid]));
      var ok := store.Rotate(raw.sid, raw, refresh);
      if !ok {
        store.Delete(raw.sid);
        return RefreshReused;
      }
      answer := Pair(access, refresh);
    }

    method Authenticate(db: Db, now: nat, raw: Token) returns (answer: Answer)
      ensures answer == Identity(raw.uid, raw.sid) <==>
        Usable(db, raw, Access, now) && raw.sid in store.sessions
      ensures answer.Identity? ==> answer == Identity(raw.uid, raw.sid)
    {
      if !Parses(raw, Access, now) {
        return InvalidToken;
      }
      if raw.sid !in store.sessions {
        return SessionExpired;
      }
      if !UserAccepts(db, raw) {
        return UserDisabled;
      }
      answer := Identity(raw.uid, raw.sid);
    }
  }

  // ---------------------------------------------------------------- uninterrupted calls are runs

  /** The steps an uninterrupted refresh takes. */
  function RefreshSteps(s: Sys, t: Token): seq<Step> {
    var f := s.nextFlight;
    if !Parses(t, Refresh, s.now) then []
    else if !UserAccepts(s.db, t) then [BeginRefresh(t), Abandon(f)]
    else if IsCurrent(s, t) then RefreshAlone(s, t)
    else [BeginRefresh(t), CheckRefresh(f), IssueRefresh(f), RotateFails(f), RevokeFamily(f)]
  }

  /** What the store holds after it: the new token in place of the presented one, or no session. */
  ghost function RefreshedSessions(ttl: Ttl, s: Sys, t: Token): map<string, Session> {
    if !Usable(s.db, t, Refresh, s.now) then s.sessions
    else if t.sid in s.sessions && s.sessions[t.sid].current == t then
      var next := Token(Refresh, t.sid, t.sid, t.uid, t.version, s.nextJti + 1, s.now, s.now + ttl.refresh);
      s.sessions[t.sid := Session(s.sessions[t.sid].uid, next)]
    else s.sessions - {t.sid}
  }

  lemma TwoSteps(ttl: Ttl, s: Sys, a: Step, b: Step)
    requires Enabled(s, a) && Enabled(Do(ttl, s, a), b)
    ensures CanRun(ttl, s, [a, b]) && After(ttl, s, [a, b]) == Do(ttl, Do(ttl, s, a), b)
  {
    var s1 := Do(ttl, s, a);
    assert [a, b][1..] == [b] && [b][1..] == [];
    assert CanRun(ttl, s1, [b]) && After(ttl, s1, [b]) == Do(ttl, s1, b);
  }

  lemma OneMoreStep(ttl: Ttl, s: Sys, a: Step, rest: seq<Step>)
    requires Enabled(s, a) && CanRun(ttl, Do(ttl, s, a), rest)
    ensures CanRun(ttl, s, [a] + rest) && After(ttl, s, [a] + rest) == After(ttl, Do(ttl, s, a), rest)
  {
    assert ([a] + rest)[1..] == rest && ([a] + rest)[0] == a;
  }

  /** An uninterrupted refresh is a run of the interleaved system with the same effect on the
      session store. */
  lemma RefreshIsRun(ttl: Ttl, s: Sys, t: Token)
    requires t in s.delivered
    ensures CanRun(ttl, s, RefreshSteps(s, t))
        && After(ttl, s, RefreshSteps(s, t)).sessions == RefreshedSessions(ttl, s, t)
  {
    var f := s.nextFlight;
    UsableIff(s.db, t, Refresh, s.now);
    if Parses(t, Refresh, s.now) {
      var s1 := Do(ttl, s, BeginRefresh(t));
      if !UserAccepts(s.db, t) {
        TwoSteps(ttl, s, BeginRefresh(t), Abandon(f));
      } else {
        AcceptedRefreshIsRun(ttl, s, t);
      }
    }
  }

  lemma AcceptedRefreshIsRun(ttl: Ttl, s: Sys, t: Token)
    requires t in s.delivered && Parses(t, Refresh, s.now) && Usable(s.db, t, Refresh, s.now)
    ensures CanRun(ttl, s, RefreshSteps(s, t))
        && After(ttl, s, RefreshSteps(s, t)).sessions == RefreshedSessions(ttl, s, t)
  {
    var f := s.nextFlight;
    var s1 := Do(ttl, s, BeginRefresh(t));
    var s2 := Do(ttl, s1, CheckRefresh(f));
    assert s2.sessions == s.sessions && s2.flights[f] == RefreshChecked(t) && s2.nextJti == s.nextJti
        && s2.now == s.now;
    var rest := if IsCurrent(s, t) then [IssueRefresh(f), Rotate(f)]
        else [IssueRefresh(f), RotateFails(f), RevokeFamily(f)];
    CheckedRefreshIsRun(ttl, s2, f, t);
    OneMoreStep(ttl, s1, CheckRefresh(f), rest);
    OneMoreStep(ttl, s, BeginRefresh(t), [CheckRefresh(f)] + rest);
    assert [BeginRefresh(t)] + ([CheckRefresh(f)] + rest) == RefreshSteps(s, t);
  }

  lemma CheckedRefreshIsRun(ttl: Ttl, s: Sys, f: nat, t: Token)
    requires f in s.flights && s.flights[f] == RefreshChecked(t)
    ensures var rest := if IsCurrent(s, t) then [IssueRefresh(f), Rotate(f)]
        else [IssueRefresh(f), RotateFails(f), RevokeFamily(f)];
      && CanRun(ttl, s, rest)
      && After(ttl, s, rest).sessions ==
         if IsCurrent(s, t)
         then s.sessions[t.sid := s.sessions[t.sid].(current := RefreshToken(ttl, s, t.uid, t.sid, t.version))]
         else s.sessions - {t.sid}
  {
    var s3 := Do(ttl, s, IssueRefresh(f));
    assert s3.sessions == s.sessions;
    if IsCurrent(s, t) {
      TwoSteps(ttl, s, IssueRefresh(f), Rotate(f));
    } else {
      TwoSteps(ttl, s3, RotateFails(f), RevokeFamily(f));
      OneMoreStep(ttl, s, IssueRefresh(f), [RotateFails(f), RevokeFamily(f)]);
      assert [IssueRefresh(f)] + [RotateFails(f), RevokeFamily(f)]
          == [IssueRefresh(f), RotateFails(f), RevokeFamily(f)];
    }
  }
}
