/** What holds over every interleaving of logins, refreshes, authentications, logouts, revocations
    and database transactions. */
module SessionSafety {
  import opened Rbac
  import opened RbacSafety
  import opened Sessions

  // ---------------------------------------------------------------- the invariant over runs

  lemma DeliverGood(s: Sys, a: Token, r: Token)
    requires Good(s) && a in s.issued && r in s.issued && a.kind == Access && a.sid in s.created && IsCurrent(s, r)
    ensures Good(Deliver(s, a, r))
  {
    var s' := Deliver(s, a, r);
    assert SessionOk(s, r.sid);
    forall t | t in s'.issued ensures TokenOk(s', t) { assert TokenOk(s, t); }
    forall sid | sid in s'.sessions ensures SessionOk(s', sid) { assert SessionOk(s, sid); }
    forall g | g in s'.flights ensures FlightOk(s', s'.flights[g]) { assert FlightOk(s, s.flights[g]); }
    FlightsCarry(s, s', s.nextFlight);
  }

  lemma ExchangeGood(s: Sys, t: Token)
    requires Good(s) && t in s.delivered && t !in s.exchanged && !IsCurrent(s, t)
    ensures Good(s.(exchanged := s.exchanged + multiset{t}))
  {
    var s' := s.(exchanged := s.exchanged + multiset{t});
    forall g | g in s'.flights ensures FlightOk(s', s'.flights[g]) { assert FlightOk(s, s.flights[g]); }
    forall x | x in s'.issued ensures TokenOk(s', x) { assert TokenOk(s, x); }
    forall sid | sid in s'.sessions ensures SessionOk(s', sid) { assert SessionOk(s, sid); }
    FlightsCarry(s, s', s.nextFlight);
  }

  lemma HistoryGood(s: Sys, accepted: multiset<Token>, reused: set<string>)
    requires Good(s) && forall sid :: sid in reused ==> sid in s.created && sid !in s.sessions
    ensures Good(s.(accepted := accepted, reused := reused))
  {
    var s' := s.(accepted := accepted, reused := reused);
    forall g | g in s'.flights ensures FlightOk(s', s'.flights[g]) { assert FlightOk(s, s.flights[g]); }
    forall x | x in s'.issued ensures TokenOk(s', x) { assert TokenOk(s, x); }
    forall sid | sid in s'.sessions ensures SessionOk(s', sid) { assert SessionOk(s, sid); }
    FlightsCarry(s, s', s.nextFlight);
  }

  lemma {:induction false} CreateGood(ttl: Ttl, s: Sys, f: nat)
    requires Good(s) && Enabled(s, CreateSession(f))
    ensures Good(Do(ttl, s, CreateSession(f)))
  {
    var w := s.flights[f];
    assert FlightOk(s, w) && TokenOk(s, w.refresh);
    StoreGood(s, f, w.refresh.sid, w.refresh.uid);
    var stored := SetCurrent(End(s, f), w.refresh.sid,
        Session(w.refresh.uid, w.refresh)).(created := s.created + {w.refresh.sid});
    DeliverGood(stored, w.access, w.refresh);
    assert Do(ttl, s, CreateSession(f)) == Deliver(stored, w.access, w.refresh);
  }

  /** The session after a successful compare-and-swap. */
  ghost function Rotated(s: Sys, f: nat): Sys
    requires Enabled(s, Rotate(f))
  {
    var w := s.flights[f];
    SetCurrent(End(s, f), w.token.sid, s.sessions[w.token.sid].(current := w.refresh))
  }

  lemma RotatedGood(s: Sys, f: nat)
    requires Good(s) && Enabled(s, Rotate(f))
    ensures Good(Rotated(s, f)) && s.flights[f].token !in s.exchanged
  {
    var w := s.flights[f];
    assert FlightOk(s, w) && SessionOk(s, w.token.sid);
    assert TokenOk(s, w.refresh);
    StoreGood(s, f, w.token.sid, s.sessions[w.token.sid].uid);
    assert s.created + {w.token.sid} == s.created;
  }

  lemma RotateGood(ttl: Ttl, s: Sys, f: nat)
    requires Good(s) && Enabled(s, Rotate(f))
    ensures Good(Do(ttl, s, Rotate(f)))
  {
    var w := s.flights[f];
    RotatedGood(s, f);
    assert FlightOk(s, w) && SessionOk(s, w.token.sid);
    var stored := Rotated(s, f);
    DeliverGood(stored, w.access, w.refresh);
    ExchangeGood(Deliver(stored, w.access, w.refresh), w.token);
    assert Do(ttl, s, Rotate(f)) == Deliver(stored, w.access, w.refresh).(exchanged := s.exchanged + multiset{w.token});
  }

  lemma IssueStepGood(ttl: Ttl, s: Sys, step: Step)
    requires Good(s) && Enabled(s, step) && (step.IssueLogin? || step.IssueRefresh?)
    ensures Good(Do(ttl, s, step))
  {
    var w := s.flights[step.f];
    assert FlightOk(s, w);
    if step.IssueLogin? {
      var a, r := AccessToken(ttl, s, w.uid, step.sid, w.version), RefreshToken(ttl, s, w.uid, step.sid, w.version);
      IssueGood(s, step.f, a, r, LoginIssued(a, r), s.sids + {step.sid});
    } else {
      var t := w.token;
      assert TokenOk(s, t);
      var a, r := AccessToken(ttl, s, t.uid, t.sid, t.version), RefreshToken(ttl, s, t.uid, t.sid, t.version);
      IssueGood(s, step.f, a, r, RefreshIssued(t, a, r), s.sids);
      assert Issued(s, a, r).(flights := s.flights[step.f := RefreshIssued(t, a, r)], sids := s.sids)
          == Issued(s, a, r).(flights := s.flights[step.f := RefreshIssued(t, a, r)]);
    }
  }

  lemma RevokeGood(ttl: Ttl, s: Sys, f: nat)
    requires Good(s) && Enabled(s, RevokeFamily(f))
    ensures Good(Do(ttl, s, RevokeFamily(f)))
  {
    var sid := s.flights[f].token.sid;
    assert FlightOk(s, s.flights[f]);
    EndGood(s, f);
    DropGood(End(s, f), {sid});
    HistoryGood(Drop(End(s, f), {sid}), s.accepted, s.reused + {sid});
    assert Do(ttl, s, RevokeFamily(f)) == Drop(End(s, f), {sid}).(accepted := s.accepted, reused := s.reused + {sid});
  }

  lemma AcceptGood(ttl: Ttl, s: Sys, f: nat)
    requires Good(s) && Enabled(s, AcceptAuth(f))
    ensures Good(Do(ttl, s, AcceptAuth(f)))
  {
    EndGood(s, f);
    HistoryGood(End(s, f), s.accepted + multiset{s.flights[f].token}, s.reused);
    assert Do(ttl, s, AcceptAuth(f))
        == End(s, f).(accepted := s.accepted + multiset{s.flights[f].token}, reused := s.reused);
  }

  lemma LoginReadOk(s: Sys, uid: nat)
    requires Good(s) && uid in s.db.users
    ensures FlightOk(s, LoginRead(uid, EffectiveVersion(s.db.users[uid])))
  {
  }

  lemma MoveStepGood(ttl: Ttl, s: Sys, step: Step)
    requires Good(s) && Enabled(s, step) && (step.CheckRefresh? || step.RotateFails? || step.FindSession?)
    ensures Good(Do(ttl, s, step))
  {
    var w := s.flights[step.f];
    assert FlightOk(s, w);
    match step
    case CheckRefresh(f) => MoveGood(s, f, RefreshChecked(w.token));
    case RotateFails(f) => MoveGood(s, f, RefreshRejected(w.token));
    case FindSession(f) => MoveGood(s, f, AuthFound(w.token));
  }

  lemma BeginStepGood(ttl: Ttl, s: Sys, step: Step)
    requires Good(s) && Enabled(s, step) && (step.BeginLogin? || step.BeginRefresh? || step.BeginAuth?)
    ensures Good(Do(ttl, s, step))
  {
    match step
    case BeginLogin(uid) => LoginReadOk(s, uid); BeginGood(s, LoginRead(uid, EffectiveVersion(s.db.users[uid])));
    case BeginRefresh(t) => BeginGood(s, RefreshParsed(t));
    case BeginAuth(t) => BeginGood(s, AuthParsed(t));
  }

  lemma DropStepGood(ttl: Ttl, s: Sys, step: Step)
    requires Good(s) && Enabled(s, step) && (step.Logout? || step.Expire? || step.RevokeUser?)
    ensures Good(Do(ttl, s, step))
  {
    if step.RevokeUser? {
      DropGood(s, SessionsOf(s, step.uid));
    } else {
      DropGood(s, {step.sid});
    }
  }

  lemma OtherStepGood(ttl: Ttl, s: Sys, step: Step)
    requires Good(s) && Enabled(s, step)
    requires step.Abandon? || step.Tick?
    ensures Good(Do(ttl, s, step))
  {
    if step.Tick? {
      TickGood(s, step.seconds);
    } else {
      EndGood(s, step.f);
    }
  }

  lemma DatabaseStepGood(ttl: Ttl, s: Sys, step: Step)
    requires Good(s) && step.Database?
    ensures Good(Do(ttl, s, step))
  {
    DatabaseGood(s, step.c, step.op, step.version);
    DatabaseStepIs(ttl, s, step);
  }

  lemma DatabaseStepIs(ttl: Ttl, s: Sys, step: Step)
    requires step.Database?
    ensures Do(ttl, s, step) == s.(db := Apply(step.c, s.db, step.op, step.version))
  {
  }

  lemma RotateLostGood(ttl: Ttl, s: Sys, f: nat)
    requires Good(s) && Enabled(s, RotateLost(f))
    ensures Good(Do(ttl, s, RotateLost(f)))
  {
    RotatedGood(s, f);
  }

  lemma StepGood(ttl: Ttl, s: Sys, step: Step)
    requires Good(s) && Enabled(s, step)
    ensures Good(Do(ttl, s, step))
  {
    if step.BeginLogin? || step.BeginRefresh? || step.BeginAuth? {
      BeginStepGood(ttl, s, step);
    } else if step.CheckRefresh? || step.RotateFails? || step.FindSession? {
      MoveStepGood(ttl, s, step);
    } else if step.IssueLogin? || step.IssueRefresh? {
      IssueStepGood(ttl, s, step);
    } else if step.CreateSession? {
      CreateGood(ttl, s, step.f);
    } else if step.Rotate? {
      RotateGood(ttl, s, step.f);
    } else if step.RotateLost? {
      RotateLostGood(ttl, s, step.f);
    } else if step.RevokeFamily? {
      RevokeGood(ttl, s, step.f);
    } else if step.AcceptAuth? {
      AcceptGood(ttl, s, step.f);
    } else if step.Logout? || step.Expire? || step.RevokeUser? {
      DropStepGood(ttl, s, step);
    } else if step.Database? {
      DatabaseStepGood(ttl, s, step);
    } else {
      OtherStepGood(ttl, s, step);
    }
  }

  lemma {:induction false} RunGood(ttl: Ttl, s: Sys, steps: seq<Step>)
    requires Good(s) && CanRun(ttl, s, steps)
    ensures Good(After(ttl, s, steps))
    decreases |steps|
  {
    if steps != [] {
      StepGood(ttl, s, steps[0]);
      RunGood(ttl, Do(ttl, s, steps[0]), steps[1..]);
    }
  }

  // ---------------------------------------------------------------- rotation

  /** Each refresh token is exchanged successfully at most once, in every run. */
  lemma ExchangedAtMostOnce(ttl: Ttl, s: Sys, steps: seq<Step>, t: Token)
    requires Initial(s) && CanRun(ttl, s, steps)
    ensures After(ttl, s, steps).exchanged[t] <= 1
  {
    InitialGood(s);
    RunGood(ttl, s, steps);
  }

  /** The steps of one refresh request that nothing interrupts. */
  function RefreshAlone(s: Sys, t: Token): seq<Step> {
    [BeginRefresh(t), CheckRefresh(s.nextFlight), IssueRefresh(s.nextFlight), Rotate(s.nextFlight)]
  }

  /** A client may refresh with `t` now. */
  ghost predicate Refreshable(ttl: Ttl, s: Sys, t: Token) { CanRun(ttl, s, RefreshAlone(s, t)) }

  /** A token of the given kind that names its session twice, was issued and has not expired, for an
      active account whose version it carries; a stored version of zero counts as one. */
  ghost predicate Usable(db: Db, t: Token, kind: Kind, now: nat) {
    && t.kind == kind && t.sid != "" && t.fid == t.sid && t.issued <= now && now < t.expires
    && t.uid in db.users && db.users[t.uid].status == Active
    && t.version == if db.users[t.uid].version == 0 then 1 else db.users[t.uid].version
  }

  /** That is what the two checks of a request amount to. */
  lemma UsableIff(db: Db, t: Token, kind: Kind, now: nat)
    ensures Usable(db, t, kind, now) <==> Parses(t, kind, now) && UserAccepts(db, t)
  {
  }

  lemma RefreshableIff(ttl: Ttl, s: Sys, t: Token)
    ensures Refreshable(ttl, s, t) <==>
      t in s.delivered && Usable(s.db, t, Refresh, s.now) && t.sid in s.sessions && s.sessions[t.sid].current == t
  {
    UsableIff(s.db, t, Refresh, s.now);
    var steps, f := RefreshAlone(s, t), s.nextFlight;
    assert steps[1..] == [CheckRefresh(f), IssueRefresh(f), Rotate(f)];
    if Enabled(s, BeginRefresh(t)) {
      var s1 := Do(ttl, s, BeginRefresh(t));
      assert s1.flights[f] == RefreshParsed(t) && s1.db == s.db && s1.sessions == s.sessions;
      assert Enabled(s1, CheckRefresh(f)) <==> UserAccepts(s.db, t);
      assert Refreshable(ttl, s, t) <==> CanRun(ttl, s1, steps[1..]);
      assert steps[1..][0] == CheckRefresh(f);
      if UserAccepts(s.db, t) { CheckedCanRotateIff(ttl, s1, f); }
    }
  }

  lemma CheckedCanRotateIff(ttl: Ttl, s: Sys, f: nat)
    requires Enabled(s, CheckRefresh(f))
    ensures CanRun(ttl, s, [CheckRefresh(f), IssueRefresh(f), Rotate(f)]) <==> IsCurrent(s, s.flights[f].token)
  {
    var s2 := Do(ttl, s, CheckRefresh(f));
    var s3 := Do(ttl, s2, IssueRefresh(f));
    assert [CheckRefresh(f), IssueRefresh(f), Rotate(f)][1..] == [IssueRefresh(f), Rotate(f)];
    assert [IssueRefresh(f), Rotate(f)][1..] == [Rotate(f)];
    assert CanRun(ttl, s3, [Rotate(f)]) <==> Enabled(s3, Rotate(f));
    assert CanRun(ttl, s2, [IssueRefresh(f), Rotate(f)]) <==> CanRun(ttl, s3, [Rotate(f)]);
  }

  /** At any moment, at most one refresh token of a session is acceptable. */
  lemma OneRefreshableToken(ttl: Ttl, s: Sys, t: Token, u: Token)
    requires Refreshable(ttl, s, t) && Refreshable(ttl, s, u) && t.sid == u.sid
    ensures t == u
  {
    RefreshableIff(ttl, s, t);
    RefreshableIff(ttl, s, u);
  }

  /** The pair from a refresh replaces the presented token: the new one is acceptable right away,
      the presented one never again. */
  lemma RotationHandsOver(ttl: Ttl, s: Sys, f: nat)
    requires Good(s) && Enabled(s, Rotate(f))
    ensures var w, s' := s.flights[f], Do(ttl, s, Rotate(f));
      IsCurrent(s', w.refresh) && !IsCurrent(s', w.token) && w.refresh in s'.delivered && s'.exchanged[w.token] == 1
  {
    assert FlightOk(s, s.flights[f]);
    RotatedGood(s, f);
  }

  // ---------------------------------------------------------------- a family that is gone

  ghost predicate Gone(s: Sys, sid: string) { sid in s.created && sid !in s.sessions }

  lemma StepKeepsGone(ttl: Ttl, s: Sys, step: Step, sid: string)
    requires Good(s) && Enabled(s, step) && Gone(s, sid)
    ensures Gone(Do(ttl, s, step), sid)
  {
    if step.CreateSession? { assert FlightOk(s, s.flights[step.f]); }
  }

  ghost predicate NoAuthInFlight(s: Sys, sid: string) {
    forall f :: f in s.flights && s.flights[f].AuthFound? ==> s.flights[f].token.sid != sid
  }

  lemma StepOfGoneFamily(ttl: Ttl, s: Sys, step: Step, t: Token)
    requires Good(s) && Enabled(s, step) && Gone(s, t.sid)
    ensures var s' := Do(ttl, s, step);
      && s'.exchanged[t] == s.exchanged[t]
      && (NoAuthInFlight(s, t.sid) ==> s'.accepted[t] == s.accepted[t] && NoAuthInFlight(s', t.sid))
  {
    HistoryStep(ttl, s, step);
    if step.Rotate? {
      assert FlightOk(s, s.flights[step.f]);
    }
    if NoAuthInFlight(s, t.sid) { FlightStep(ttl, s, step); }
  }

  /** Which steps extend the history. */
  lemma HistoryStep(ttl: Ttl, s: Sys, step: Step)
    requires Enabled(s, step)
    ensures var s' := Do(ttl, s, step);
      && s'.exchanged == (if step.Rotate? then s.exchanged + multiset{s.flights[step.f].token} else s.exchanged)
      && s'.accepted == (if step.AcceptAuth? then s.accepted + multiset{s.flights[step.f].token} else s.accepted)
  {
  }

  /** Requests past a check were so before, or passed it in this very step. */
  lemma FlightStep(ttl: Ttl, s: Sys, step: Step)
    requires Enabled(s, step)
    ensures var s' := Do(ttl, s, step);
      forall f :: f in s'.flights ==>
        && (s'.flights[f].AuthFound? ==>
              (f in s.flights && s.flights[f] == s'.flights[f]) || (s'.flights[f].token.sid in s.sessions))
        && (s'.flights[f].RefreshChecked? || s'.flights[f].RefreshIssued? ==>
              (f in s.flights && (s.flights[f].RefreshChecked? || s.flights[f].RefreshIssued?)
                  && s.flights[f].token == s'.flights[f].token)
              || UserAccepts(s.db, s'.flights[f].token))
  {
  }

  /** A session that was removed, for whatever reason, never comes back: none of its refresh tokens
      is exchanged again, and none of its access tokens is accepted again except by a request that
      had already seen the session. */
  lemma {:induction false} GoneForGood(ttl: Ttl, s: Sys, steps: seq<Step>, t: Token)
    requires Good(s) && CanRun(ttl, s, steps) && Gone(s, t.sid)
    ensures var s' := After(ttl, s, steps);
      && Gone(s', t.sid) && s'.exchanged[t] == s.exchanged[t]
      && (NoAuthInFlight(s, t.sid) ==> s'.accepted[t] == s.accepted[t])
    decreases |steps|
  {
    if steps != [] {
      StepGood(ttl, s, steps[0]);
      StepKeepsGone(ttl, s, steps[0], t.sid);
      StepOfGoneFamily(ttl, s, steps[0], t);
      GoneForGood(ttl, Do(ttl, s, steps[0]), steps[1..], t);
    }
  }

  /** Presenting a superseded refresh token ends its whole family for good, from the moment the session
      is deleted: after that no token of it refreshes, in any continuation. */
  lemma ReuseEndsFamily(ttl: Ttl, s: Sys, f: nat, steps: seq<Step>, t: Token)
    requires Good(s) && Enabled(s, RevokeFamily(f)) && t.sid == s.flights[f].token.sid
    requires CanRun(ttl, Do(ttl, s, RevokeFamily(f)), steps)
    ensures var s' := After(ttl, Do(ttl, s, RevokeFamily(f)), steps);
      && t.sid in s'.reused && t.sid !in s'.sessions && s'.exchanged[t] == s.exchanged[t] && !Refreshable(ttl, s', t)
      && (NoAuthInFlight(s, t.sid) ==> s'.accepted[t] == s.accepted[t])
  {
    var dead := Do(ttl, s, RevokeFamily(f));
    assert FlightOk(s, s.flights[f]);
    StepGood(ttl, s, RevokeFamily(f));
    GoneForGood(ttl, dead, steps, t);
    ReusedStays(ttl, dead, steps, t.sid);
    RefreshableIff(ttl, After(ttl, dead, steps), t);
  }

  lemma {:induction false} ReusedStays(ttl: Ttl, s: Sys, steps: seq<Step>, sid: string)
    requires CanRun(ttl, s, steps) && sid in s.reused
    ensures sid in After(ttl, s, steps).reused
    decreases |steps|
  {
    if steps != [] { ReusedStays(ttl, Do(ttl, s, steps[0]), steps[1..], sid); }
  }

  /** The rejection waits for that deletion: until the request is over, the deletion can be done. */
  lemma {:induction false} RejectionWaits(ttl: Ttl, s: Sys, f: nat, steps: seq<Step>)
    requires f in s.flights && s.flights[f].RefreshRejected? && f < s.nextFlight && CanRun(ttl, s, steps)
    requires !Concludes(steps, f)
    ensures var s' := After(ttl, s, steps);
      f in s'.flights && s'.flights[f] == s.flights[f] && Enabled(s', RevokeFamily(f))
    decreases |steps|
  {
    if steps != [] {
      assert steps[0] in steps && forall x :: x in steps[1..] ==> x in steps;
      RejectedStep(ttl, s, f, steps[0]);
      RejectionWaits(ttl, Do(ttl, s, steps[0]), f, steps[1..]);
    }
  }

  /** The request deletes the session, or is over without having done so. */
  ghost predicate Concludes(steps: seq<Step>, f: nat) { RevokeFamily(f) in steps || Abandon(f) in steps }

  lemma RejectedStep(ttl: Ttl, s: Sys, f: nat, step: Step)
    requires f in s.flights && s.flights[f].RefreshRejected? && f < s.nextFlight && Enabled(s, step)
    requires step != RevokeFamily(f) && step != Abandon(f)
    ensures var s' := Do(ttl, s, step); f in s'.flights && s'.flights[f] == s.flights[f] && f < s'.nextFlight
  {
  }

  /** But if the deletion fails, the family lives on: exactly the tokens that could be refreshed
      before the reuse was noticed can be refreshed after. */
  lemma FailedDeletionKeepsFamily(ttl: Ttl, s: Sys, f: nat, t: Token)
    requires Enabled(s, RotateFails(f))
    ensures var s' := Do(ttl, Do(ttl, s, RotateFails(f)), Abandon(f));
      s'.sessions == s.sessions && (Refreshable(ttl, s', t) <==> Refreshable(ttl, s, t))
  {
    var s' := Do(ttl, Do(ttl, s, RotateFails(f)), Abandon(f));
    RefreshableIff(ttl, s, t);
    RefreshableIff(ttl, s', t);
  }

  /** A refresh with a token that was exchanged before is always rejected, and the rejection leads
      to the revocation of the family. */
  lemma ReuseIsDetected(s: Sys, f: nat)
    requires Good(s) && f in s.flights && s.flights[f].RefreshIssued? && s.flights[f].token in s.exchanged
    ensures !Enabled(s, Rotate(f)) && Enabled(s, RotateFails(f))
  {
  }

  // ---------------------------------------------------------------- session versions

  ghost predicate Stale(db: Db, t: Token) { t.uid in db.users && t.version < db.users[t.uid].version }

  /** The request with `t` has not passed the account check. */
  ghost predicate Unchecked(s: Sys, t: Token) {
    forall f :: f in s.flights && (s.flights[f].RefreshChecked? || s.flights[f].RefreshIssued?) ==>
        s.flights[f].token != t
  }

  lemma StaleIsRefused(db: Db, t: Token)
    requires Stale(db, t)
    ensures !UserAccepts(db, t)
  {
  }

  lemma DatabaseKept(ttl: Ttl, s: Sys, step: Step)
    requires Enabled(s, step) && !step.Database?
    ensures Do(ttl, s, step).db == s.db
  {
  }

  lemma StepKeepsStale(ttl: Ttl, s: Sys, step: Step, t: Token)
    requires Good(s) && Enabled(s, step) && Stale(s.db, t)
    ensures Stale(Do(ttl, s, step).db, t)
  {
    if step.Database? {
      VersionsGrow(step.c, s.db, step.op, step.version, t.uid);
    } else {
      DatabaseKept(ttl, s, step);
    }
  }

  lemma StepOfStale(ttl: Ttl, s: Sys, step: Step, t: Token)
    requires Good(s) && Enabled(s, step) && Stale(s.db, t)
    ensures var s' := Do(ttl, s, step);
      && s'.accepted[t] == s.accepted[t]
      && (Unchecked(s, t) ==> s'.exchanged[t] == s.exchanged[t] && Unchecked(s', t))
  {
    HistoryStep(ttl, s, step);
    StaleIsRefused(s.db, t);
    FlightStep(ttl, s, step);
  }

  lemma {:induction false} StaleForGood(ttl: Ttl, s: Sys, steps: seq<Step>, t: Token)
    requires Good(s) && CanRun(ttl, s, steps) && Stale(s.db, t)
    ensures var s' := After(ttl, s, steps);
      && Stale(s'.db, t) && s'.accepted[t] == s.accepted[t]
      && (Unchecked(s, t) ==> s'.exchanged[t] == s.exchanged[t])
    decreases |steps|
  {
    if steps != [] {
      StepGood(ttl, s, steps[0]);
      StepKeepsStale(ttl, s, steps[0], t);
      StepOfStale(ttl, s, steps[0], t);
      StaleForGood(ttl, Do(ttl, s, steps[0]), steps[1..], t);
    }
  }

  /** Once a role assignment, a permission replacement, a password or status change has affected a
      user, every token with a version the account had before is refused by all authentications and
      refreshes in all later states: those signed before, and those signed later by a login or a
      refresh that had read the account before.  (A refresh that had already passed the account check
      may still rotate; its new tokens carry the old version and are among the refused.) */
  lemma OldTokensAreRefused(ttl: Ttl, s: Sys, c: Config, op: Op, version: string, steps: seq<Step>, t: Token)
    requires Good(s) && OutcomeOf(c, s.db, op) == Done && Affected(s.db, op, t.uid)
    requires VersionOk(s.db, t.uid, t.version)
    requires CanRun(ttl, Do(ttl, s, Database(c, op, version)), steps)
    ensures var s' := After(ttl, Do(ttl, s, Database(c, op, version)), steps);
      && !UserAccepts(s'.db, t) && !Refreshable(ttl, s', t) && s'.accepted[t] == s.accepted[t]
      && (Unchecked(s, t) ==> s'.exchanged[t] == s.exchanged[t])
  {
    var bumped := Do(ttl, s, Database(c, op, version));
    BumpIsExact(c, s.db, op, version, t.uid);
    StepGood(ttl, s, Database(c, op, version));
    StaleForGood(ttl, bumped, steps, t);
    RefreshableIff(ttl, After(ttl, bumped, steps), t);
  }

  /** Which versions these are: those of all tokens signed so far, hence of all that a refresh under way
      can sign, and those a login under way has read. */
  lemma VersionsInUse(s: Sys, uid: nat, version: nat)
    requires Good(s)
    requires (exists t :: t in s.issued && t.uid == uid && t.version == version)
          || (exists f :: f in s.flights && s.flights[f] == LoginRead(uid, version))
    ensures VersionOk(s.db, uid, version)
  {
    if t :| t in s.issued && t.uid == uid && t.version == version {
      assert TokenOk(s, t);
    } else {
      var f :| f in s.flights && s.flights[f] == LoginRead(uid, version);
      assert FlightOk(s, s.flights[f]);
    }
  }

  /** Raising the stored version changes the effective one exactly when the stored one is not zero:
      an account stored with version zero would keep its tokens through its first bump. */
  lemma BumpTakesEffectIff(a: Account)
    ensures EffectiveVersion(a.(version := a.version + 1)) != EffectiveVersion(a) <==> a.version != 0
  {
  }
}
