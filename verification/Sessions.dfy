/** Login sessions with rotating refresh tokens, as an interleaving of the single steps of any
    number of concurrent requests over one session store and the account table.  Tokens are
    unforgeable, identifiers are never drawn twice, and the token hash is injective, so a session
    holds the refresh token itself. */
module Sessions {
  import opened Rbac
  import opened RbacSafety

  datatype Kind = Access | Refresh

  /** The claims of a token: `typ`, `sid`, `fid`, subject, `sv`, `jti`, `iat`, `exp`. */
  datatype Token = Token(kind: Kind, sid: string, fid: string, uid: nat, version: nat, jti: nat,
                         issued: nat, expires: nat)

  datatype Session = Session(uid: nat, current: Token)

  /** A request between two of its steps. */
  datatype Flight =
    | LoginRead(uid: nat, version: nat)
    | LoginIssued(access: Token, refresh: Token)
    | RefreshParsed(token: Token)
    | RefreshChecked(token: Token)
    | RefreshIssued(token: Token, access: Token, refresh: Token)
    | RefreshRejected(token: Token)
    | AuthParsed(token: Token)
    | AuthFound(token: Token)

  /** Besides the tables: identifiers drawn (`sids`, `nextJti`), sessions ever created, tokens ever
      signed, tokens handed to a client, and the history of successful exchanges, accepted
      authentications and families revoked after a reuse. */
  datatype Sys = Sys(db: Db, now: nat, sessions: map<string, Session>, sids: set<string>, created: set<string>,
                     nextJti: nat, issued: set<Token>, delivered: set<Token>, flights: map<nat, Flight>,
                     nextFlight: nat,
                     exchanged: multiset<Token>, accepted: multiset<Token>, reused: set<string>)

  datatype Ttl = Ttl(access: nat, refresh: nat)

  // ---------------------------------------------------------------- checks

  function EffectiveVersion(a: Account): nat { if a.version == 0 then 1 else a.version }

  predicate Parses(t: Token, kind: Kind, now: nat) {
    t.kind == kind && t.sid != "" && t.fid == t.sid && t.version != 0 && t.issued <= now < t.expires
  }

  predicate UserAccepts(db: Db, t: Token) {
    t.uid in db.users && db.users[t.uid].status.Active? && t.version == EffectiveVersion(db.users[t.uid])
  }

  predicate IsCurrent(s: Sys, t: Token) { t.sid in s.sessions && s.sessions[t.sid].current == t }

  function AccessToken(ttl: Ttl, s: Sys, uid: nat, sid: string, version: nat): Token {
    Token(Access, sid, sid, uid, version, s.nextJti, s.now, s.now + ttl.access)
  }

  function RefreshToken(ttl: Ttl, s: Sys, uid: nat, sid: string, version: nat): Token {
    Token(Refresh, sid, sid, uid, version, s.nextJti + 1, s.now, s.now + ttl.refresh)
  }

  // ---------------------------------------------------------------- steps

  datatype Step =
    | BeginLogin(uid: nat)
    | IssueLogin(f: nat, sid: string)
    | CreateSession(f: nat)
    | BeginRefresh(token: Token)
    | CheckRefresh(f: nat)
    | IssueRefresh(f: nat)
    | Rotate(f: nat)
    | RotateLost(f: nat)
    | RotateFails(f: nat)
    | RevokeFamily(f: nat)
    | BeginAuth(token: Token)
    | FindSession(f: nat)
    | AcceptAuth(f: nat)
    | Logout(sid: string)
    | Expire(sid: string)
    | RevokeUser(uid: nat)
    | Abandon(f: nat)
    | Tick(seconds: nat)
    | Database(c: Config, op: Op, version: string)

  predicate Enabled(s: Sys, step: Step) {
    match step
    case BeginLogin(uid) => uid in s.db.users && s.db.users[uid].status.Active?
    case IssueLogin(f, sid) => f in s.flights && s.flights[f].LoginRead? && sid != "" && sid !in s.sids
    case CreateSession(f) => f in s.flights && s.flights[f].LoginIssued?
    case BeginRefresh(t) => t in s.delivered && Parses(t, Refresh, s.now)
    case CheckRefresh(f) => f in s.flights && s.flights[f].RefreshParsed? && UserAccepts(s.db, s.flights[f].token)
    case IssueRefresh(f) => f in s.flights && s.flights[f].RefreshChecked?
    case Rotate(f) => f in s.flights && s.flights[f].RefreshIssued? && IsCurrent(s, s.flights[f].token)
    case RotateLost(f) => f in s.flights && s.flights[f].RefreshIssued? && IsCurrent(s, s.flights[f].token)
    case RotateFails(f) => f in s.flights && s.flights[f].RefreshIssued? && !IsCurrent(s, s.flights[f].token)
    case RevokeFamily(f) => f in s.flights && s.flights[f].RefreshRejected?
    case BeginAuth(t) => t in s.delivered && Parses(t, Access, s.now)
    case FindSession(f) => f in s.flights && s.flights[f].AuthParsed? && s.flights[f].token.sid in s.sessions
    case AcceptAuth(f) => f in s.flights && s.flights[f].AuthFound? && UserAccepts(s.db, s.flights[f].token)
    case Abandon(f) => f in s.flights
    case _ => true
  }

  function Begin(s: Sys, flight: Flight): Sys {
    s.(flights := s.flights[s.nextFlight := flight], nextFlight := s.nextFlight + 1)
  }

  function End(s: Sys, f: nat): Sys { s.(flights := s.flights - {f}) }

  /** Sign a pair; its two identifiers are drawn from `nextJti`. */
  function Issued(s: Sys, a: Token, r: Token): Sys {
    s.(issued := s.issued + {a, r}, nextJti := s.nextJti + 2)
  }

  function Deliver(s: Sys, a: Token, r: Token): Sys { s.(delivered := s.delivered + {a, r}) }

  function SetCurrent(s: Sys, sid: string, session: Session): Sys { s.(sessions := s.sessions[sid := session]) }

  function Drop(s: Sys, sids: set<string>): Sys { s.(sessions := s.sessions - sids) }

  function SessionsOf(s: Sys, uid: nat): set<string> { set sid | sid in s.sessions && s.sessions[sid].uid == uid }

  ghost function Do(ttl: Ttl, s: Sys, step: Step): Sys
    requires Enabled(s, step)
  {
    match step
    case BeginLogin(uid) => Begin(s, LoginRead(uid, EffectiveVersion(s.db.users[uid])))
    case IssueLogin(f, sid) =>
      var w := s.flights[f];
      var a, r := AccessToken(ttl, s, w.uid, sid, w.version), RefreshToken(ttl, s, w.uid, sid, w.version);
      Issued(s, a, r).(flights := s.flights[f := LoginIssued(a, r)], sids := s.sids + {sid})
    case CreateSession(f) =>
      var w := s.flights[f];
      Deliver(SetCurrent(End(s, f), w.refresh.sid, Session(w.refresh.uid, w.refresh)), w.access, w.refresh)
        .(created := s.created + {w.refresh.sid})
    case BeginRefresh(t) => Begin(s, RefreshParsed(t))
    case CheckRefresh(f) => s.(flights := s.flights[f := RefreshChecked(s.flights[f].token)])
    case IssueRefresh(f) =>
      var t := s.flights[f].token;
      var a, r := AccessToken(ttl, s, t.uid, t.sid, t.version), RefreshToken(ttl, s, t.uid, t.sid, t.version);
      Issued(s, a, r).(flights := s.flights[f := RefreshIssued(t, a, r)])
    case Rotate(f) =>
      var w := s.flights[f];
      Deliver(SetCurrent(End(s, f), w.token.sid, s.sessions[w.token.sid].(current := w.refresh)), w.access, w.refresh)
        .(exchanged := s.exchanged + multiset{w.token})
    case RotateLost(f) =>
      var w := s.flights[f];
      SetCurrent(End(s, f), w.token.sid, s.sessions[w.token.sid].(current := w.refresh))
    case RotateFails(f) => s.(flights := s.flights[f := RefreshRejected(s.flights[f].token)])
    case RevokeFamily(f) =>
      var sid := s.flights[f].token.sid;
      Drop(End(s, f), {sid}).(reused := s.reused + {sid})
    case BeginAuth(t) => Begin(s, AuthParsed(t))
    case FindSession(f) => s.(flights := s.flights[f := AuthFound(s.flights[f].token)])
    case AcceptAuth(f) => End(s, f).(accepted := s.accepted + multiset{s.flights[f].token})
    case Logout(sid) => Drop(s, {sid})
    case Expire(sid) => Drop(s, {sid})
    case RevokeUser(uid) => Drop(s, SessionsOf(s, uid))
    case Abandon(f) => End(s, f)
    case Tick(d) => s.(now := s.now + d)
    case Database(c, op, version) => s.(db := Apply(c, s.db, op, version))
  }

  /** A run: every step is possible where it is taken. */
  ghost predicate CanRun(ttl: Ttl, s: Sys, steps: seq<Step>)
    decreases |steps|
  {
    steps != [] ==> Enabled(s, steps[0]) && CanRun(ttl, Do(ttl, s, steps[0]), steps[1..])
  }

  ghost function After(ttl: Ttl, s: Sys, steps: seq<Step>): Sys
    requires CanRun(ttl, s, steps)
    decreases |steps|
  {
    if steps == [] then s else After(ttl, Do(ttl, s, steps[0]), steps[1..])
  }

  // ---------------------------------------------------------------- the invariant

  ghost predicate VersionOk(db: Db, uid: nat, version: nat) {
    uid in db.users && 1 <= version <= db.users[uid].version
  }

  ghost predicate TokenOk(s: Sys, t: Token) {
    t.jti < s.nextJti && t.sid in s.sids && VersionOk(s.db, t.uid, t.version)
  }

  ghost predicate TokensOk(s: Sys) { forall t :: t in s.issued ==> TokenOk(s, t) }

  ghost predicate SessionOk(s: Sys, sid: string) {
    sid in s.sessions && sid in s.created && s.sessions[sid].current in s.issued
        && s.sessions[sid].current.kind == Refresh
    && s.sessions[sid].current.sid == sid
  }

  ghost predicate SessionsOk(s: Sys) { s.created <= s.sids && forall sid :: sid in s.sessions ==> SessionOk(s, sid) }

  ghost predicate DeliveredOk(s: Sys) { forall t :: t in s.delivered ==> t in s.issued && t.sid in s.created }

  /** An exchanged token was exchanged once and is no longer the current one of its session. */
  ghost predicate ExchangedOk(s: Sys) {
    forall t :: t in s.exchanged ==> s.exchanged[t] == 1 && t in s.delivered && !IsCurrent(s, t)
  }

  /** A refresh token that is signed but not yet stored or handed out. */
  ghost predicate Pending(s: Sys, r: Token) {
    r in s.issued && r.kind == Refresh && r !in s.delivered && !IsCurrent(s, r)
  }

  ghost predicate FlightOk(s: Sys, w: Flight) {
    match w
    case LoginRead(uid, version) => VersionOk(s.db, uid, version)
    case LoginIssued(a, r) => Pending(s, r) && a in s.issued && a.sid == r.sid && a.kind == Access
        && r.sid !in s.created
    case RefreshParsed(t) => t in s.delivered && t.kind == Refresh
    case RefreshChecked(t) => t in s.delivered && t.kind == Refresh
    case RefreshIssued(t, a, r) =>
      t in s.delivered && t.kind == Refresh && Pending(s, r) && r.sid == t.sid && a in s.issued && a.sid == t.sid
          && a.kind == Access
    case RefreshRejected(t) => t in s.delivered && t.kind == Refresh
    case AuthParsed(t) => t in s.delivered && t.kind == Access
    case AuthFound(t) => t in s.delivered && t.kind == Access
  }

  ghost predicate FlightsOk(s: Sys) { forall f :: f in s.flights ==> f < s.nextFlight && FlightOk(s, s.flights[f]) }

  predicate HoldsPair(w: Flight) { w.LoginIssued? || w.RefreshIssued? }

  /** No two requests hold the same new token, and no two logins the same new session. */
  ghost predicate Apart(v: Flight, w: Flight) {
    HoldsPair(v) && HoldsPair(w) ==>
      v.refresh != w.refresh && (v.LoginIssued? && w.LoginIssued? ==> v.refresh.sid != w.refresh.sid)
  }

  ghost predicate FlightsApart(s: Sys) {
    forall f, g :: f in s.flights && g in s.flights && f != g ==> Apart(s.flights[f], s.flights[g])
  }

  ghost predicate ReusedOk(s: Sys) { forall sid :: sid in s.reused ==> sid in s.created && sid !in s.sessions }

  ghost predicate Good(s: Sys) {
    && Inv(s.db) && TokensOk(s) && SessionsOk(s) && DeliveredOk(s) && ExchangedOk(s)
    && FlightsOk(s) && FlightsApart(s) && ReusedOk(s)
  }

  /** Before the first login. */
  ghost predicate Initial(s: Sys) {
    && Inv(s.db) && s.sessions == map[] && s.created == {} && s.issued == {} && s.delivered == {} && s.flights == map[]
    && s.exchanged == multiset{} && s.accepted == multiset{} && s.reused == {}
  }

  lemma InitialGood(s: Sys)
    requires Initial(s)
    ensures Good(s)
  {
  }

  // ---------------------------------------------------------------- each step keeps it

  /** The parts that only speak about flights carry over when the tables they mention do. */
  lemma FlightsCarry(s: Sys, after: Sys, f: nat)
    requires FlightsOk(s) && FlightsApart(s) && s.nextFlight <= after.nextFlight
    requires forall g :: g in after.flights && g != f ==> g in s.flights && after.flights[g] == s.flights[g]
    requires forall g :: g in after.flights && g != f ==> FlightOk(after, after.flights[g])
    requires f in after.flights ==> f < after.nextFlight && FlightOk(after, after.flights[f])
    requires f in after.flights ==> forall g :: g in after.flights && g != f ==>
        Apart(after.flights[f], after.flights[g])
    ensures FlightsOk(after) && FlightsApart(after)
  {
    forall g, h | g in after.flights && h in after.flights && g != h ensures Apart(after.flights[g], after.flights[h]) {
      if g == f {
        assert Apart(after.flights[f], after.flights[h]);
      } else if h == f {
        assert Apart(after.flights[f], after.flights[g]);
      } else {
        assert Apart(s.flights[g], s.flights[h]);
      }
    }
  }

  lemma BeginGood(s: Sys, w: Flight)
    requires Good(s) && FlightOk(s, w) && !HoldsPair(w)
    ensures Good(Begin(s, w))
  {
    var after := Begin(s, w);
    forall g | g in after.flights && g != s.nextFlight ensures FlightOk(after, after.flights[g]) {
      assert FlightOk(s, s.flights[g]);
    }
    assert FlightOk(after, w);
    FlightsCarry(s, after, s.nextFlight);
  }

  lemma EndGood(s: Sys, f: nat)
    requires Good(s)
    ensures Good(End(s, f))
  {
    var after := End(s, f);
    forall g | g in after.flights ensures FlightOk(after, after.flights[g]) { assert FlightOk(s, s.flights[g]); }
    FlightsCarry(s, after, f);
  }

  /** A request moves on without touching anything shared. */
  lemma MoveGood(s: Sys, f: nat, w: Flight)
    requires Good(s) && f in s.flights && FlightOk(s, w) && !HoldsPair(w)
    ensures Good(s.(flights := s.flights[f := w]))
  {
    var after := s.(flights := s.flights[f := w]);
    forall g | g in after.flights && g != f ensures FlightOk(after, after.flights[g]) {
      assert FlightOk(s, s.flights[g]);
    }
    assert FlightOk(after, w);
    FlightsCarry(s, after, f);
  }

  lemma DropGood(s: Sys, sids: set<string>)
    requires Good(s)
    ensures Good(Drop(s, sids))
  {
    var after := Drop(s, sids);
    forall t | IsCurrent(after, t) ensures IsCurrent(s, t) {}
    forall g | g in after.flights ensures FlightOk(after, after.flights[g]) { assert FlightOk(s, s.flights[g]); }
    FlightsCarry(s, after, s.nextFlight);
    forall sid | sid in after.sessions ensures SessionOk(after, sid) { assert SessionOk(s, sid); }
  }

  lemma TickGood(s: Sys, d: nat)
    requires Good(s)
    ensures Good(s.(now := s.now + d))
  {
    var after := s.(now := s.now + d);
    forall g | g in after.flights ensures FlightOk(after, after.flights[g]) { assert FlightOk(s, s.flights[g]); }
    forall t | t in after.issued ensures TokenOk(after, t) { assert TokenOk(s, t); }
    forall sid | sid in after.sessions ensures SessionOk(after, sid) { assert SessionOk(s, sid); }
    FlightsCarry(s, after, s.nextFlight);
  }

  lemma DatabaseGood(s: Sys, c: Config, op: Op, version: string)
    requires Good(s)
    ensures Good(s.(db := Apply(c, s.db, op, version)))
  {
    var after := s.(db := Apply(c, s.db, op, version));
    StepKeepsInv(c, s.db, op, version);
    forall u, v | VersionOk(s.db, u, v) ensures VersionOk(after.db, u, v) { VersionsGrow(c, s.db, op, version, u); }
    DatabaseFrame(s, after);
  }

  lemma DatabaseFrame(s: Sys, after: Sys)
    requires Good(s) && Inv(after.db) && after == s.(db := after.db)
    requires forall u, v :: VersionOk(s.db, u, v) ==> VersionOk(after.db, u, v)
    ensures Good(after)
  {
    forall t | t in after.issued ensures TokenOk(after, t) { assert TokenOk(s, t); }
    forall sid | sid in after.sessions ensures SessionOk(after, sid) { assert SessionOk(s, sid); }
    forall g | g in after.flights ensures FlightOk(after, after.flights[g]) { assert FlightOk(s, s.flights[g]); }
    FlightsCarry(s, after, s.nextFlight);
  }

  /** Signing a pair for a request: the new tokens are unlike all earlier ones. */
  lemma IssueGood(s: Sys, f: nat, a: Token, r: Token, w: Flight, sids: set<string>)
    requires Good(s) && f in s.flights && s.sids <= sids
    requires a.kind == Access && r.kind == Refresh && a.jti == s.nextJti && r.jti == s.nextJti + 1 && a.sid == r.sid
    requires a.sid in sids && VersionOk(s.db, a.uid, a.version) && VersionOk(s.db, r.uid, r.version)
    requires if w.LoginIssued? then w == LoginIssued(a, r) && a.sid !in s.sids
             else w.RefreshIssued? && w == RefreshIssued(w.token, a, r) && w.token in s.delivered
                  && w.token.kind == Refresh && w.token.sid == a.sid
    ensures Good(Issued(s, a, r).(flights := s.flights[f := w], sids := sids))
  {
    var after := Issued(s, a, r).(flights := s.flights[f := w], sids := sids);
    forall t | t in s.issued ensures t.jti < s.nextJti { assert TokenOk(s, t); }
    forall t | t in after.issued ensures TokenOk(after, t) { assert t in s.issued ==> TokenOk(s, t); }
    forall sid | sid in after.sessions ensures SessionOk(after, sid) { assert SessionOk(s, sid); }
    assert r.sid in s.sessions ==> SessionOk(s, r.sid);
    assert FlightOk(after, w);
    forall g | g in after.flights && g != f ensures FlightOk(after, after.flights[g]) && Apart(w, after.flights[g]) {
      assert FlightOk(s, s.flights[g]);
      if s.flights[g].LoginIssued? { assert TokenOk(s, s.flights[g].refresh); }
    }
    FlightsCarry(s, after, f);
  }

  /** Storing the new token of a request as the current one of its session. */
  lemma StoreGood(s: Sys, f: nat, sid: string, uid: nat)
    requires Good(s) && f in s.flights && HoldsPair(s.flights[f]) && sid == s.flights[f].refresh.sid && sid in s.sids
    requires s.flights[f].LoginIssued? || sid in s.sessions
    ensures Good(SetCurrent(End(s, f), sid, Session(uid, s.flights[f].refresh)).(created := s.created + {sid}))
  {
    var w := s.flights[f];
    var r := w.refresh;
    var after := SetCurrent(End(s, f), sid, Session(uid, r)).(created := s.created + {sid});
    assert FlightOk(s, w);
    forall t | t != r && IsCurrent(after, t) ensures IsCurrent(s, t) {}
    forall x | x in after.sessions ensures SessionOk(after, x) { if x != sid { assert SessionOk(s, x); } }
    forall g | g in after.flights ensures FlightOk(after, after.flights[g]) {
      assert FlightOk(s, s.flights[g]) && Apart(s.flights[f], s.flights[g]);
      if s.flights[g].LoginIssued? { LoginSidDiffers(s, f, g); }
    }
    FlightsCarry(s, after, f);
  }

  lemma LoginSidDiffers(s: Sys, f: nat, g: nat)
    requires Good(s) && f in s.flights && g in s.flights && f != g && HoldsPair(s.flights[f])
        && s.flights[g].LoginIssued?
    requires s.flights[f].LoginIssued? || s.flights[f].refresh.sid in s.sessions
    ensures s.flights[g].refresh.sid != s.flights[f].refresh.sid
  {
    assert FlightOk(s, s.flights[g]) && Apart(s.flights[f], s.flights[g]);
    if s.flights[f].RefreshIssued? { assert SessionOk(s, s.flights[f].refresh.sid); }
  }
}
