/** The life of a token: how it is signed, when it may be presented, and what ends it. */
module TokenLife {
  import opened Rbac
  import opened Sessions
  import opened SessionSafety

  // ---------------------------------------------------------------- what a step changes

  /** The pair signed for a session. */
  ghost predicate Signed(ttl: Ttl, s: Sys, uid: nat, sid: string, version: nat, a: Token, r: Token) {
    && a == Token(Access, sid, sid, uid, version, s.nextJti, s.now, s.now + ttl.access)
    && r == Token(Refresh, sid, sid, uid, version, s.nextJti + 1, s.now, s.now + ttl.refresh)
  }

  /** A login signs for a new session of the account it read, a refresh for the session, the account and
      the version of the presented token; nothing else signs. */
  lemma SigningStep(ttl: Ttl, s: Sys, step: Step)
    requires Enabled(s, step)
    ensures var s' := Do(ttl, s, step);
      if step.IssueLogin? then
        var w := s'.flights[step.f];
        && w.LoginIssued? && s'.issued == s.issued + {w.access, w.refresh}
        && Signed(ttl, s, s.flights[step.f].uid, step.sid, s.flights[step.f].version, w.access, w.refresh)
      else if step.IssueRefresh? then
        var w, t := s'.flights[step.f], s.flights[step.f].token;
        && w.RefreshIssued? && w.token == t && s'.issued == s.issued + {w.access, w.refresh}
        && Signed(ttl, s, t.uid, t.sid, t.version, w.access, w.refresh)
      else s'.issued == s.issued
  {
  }

  lemma ClockStep(ttl: Ttl, s: Sys, step: Step)
    requires Enabled(s, step)
    ensures Do(ttl, s, step).now == s.now + if step.Tick? then step.seconds else 0
  {
  }

  /** Which sessions a step stores or removes. */
  lemma StoreStep(ttl: Ttl, s: Sys, step: Step)
    requires Enabled(s, step)
    ensures var s' := Do(ttl, s, step);
      match step
      case CreateSession(f) =>
        var r := s.flights[f].refresh; s'.sessions == s.sessions[r.sid := Session(r.uid, r)]
      case Rotate(f) =>
        var w := s.flights[f];
        s'.sessions == s.sessions[w.token.sid := Session(s.sessions[w.token.sid].uid, w.refresh)]
      case RotateLost(f) =>
        var w := s.flights[f];
        s'.sessions == s.sessions[w.token.sid := Session(s.sessions[w.token.sid].uid, w.refresh)]
      case RevokeFamily(f) => s'.sessions == s.sessions - {s.flights[f].token.sid}
      case Logout(sid) => s'.sessions == s.sessions - {sid}
      case Expire(sid) => s'.sessions == s.sessions - {sid}
      case RevokeUser(uid) =>
        s'.sessions == map sid | sid in s.sessions && s.sessions[sid].uid != uid :: s.sessions[sid]
      case _ => s'.sessions == s.sessions
  {
  }

  // ---------------------------------------------------------------- tokens as they are signed

  /** Names its session twice, carries a version, and expires after the time its kind has. */
  ghost predicate Shaped(ttl: Ttl, s: Sys, t: Token) {
    && t.sid != "" && t.fid == t.sid && t.version >= 1 && t.issued <= s.now
    && t.expires == t.issued + if t.kind.Access? then ttl.access else ttl.refresh
  }

  ghost predicate AllShaped(ttl: Ttl, s: Sys) { forall t :: t in s.issued ==> Shaped(ttl, s, t) }

  lemma StepKeepsShape(ttl: Ttl, s: Sys, step: Step)
    requires Good(s) && AllShaped(ttl, s) && Enabled(s, step)
    ensures AllShaped(ttl, Do(ttl, s, step))
  {
    SigningStep(ttl, s, step);
    ClockStep(ttl, s, step);
    if step.IssueLogin? || step.IssueRefresh? { assert FlightOk(s, s.flights[step.f]); }
    if step.IssueRefresh? { assert Shaped(ttl, s, s.flights[step.f].token); }
  }

  /** The tokens of one session belong to one account, that of the session. */
  ghost predicate OneOwner(s: Sys) {
    forall t, u :: t in s.issued && u in s.issued && t.sid == u.sid ==> t.uid == u.uid
  }

  ghost predicate SessionOwners(s: Sys) {
    forall sid :: sid in s.sessions ==> s.sessions[sid].uid == s.sessions[sid].current.uid
  }

  lemma StepKeepsOwner(ttl: Ttl, s: Sys, step: Step)
    requires Good(s) && OneOwner(s) && Enabled(s, step)
    ensures OneOwner(Do(ttl, s, step))
  {
    SigningStep(ttl, s, step);
    if step.IssueLogin? {
      forall t | t in s.issued ensures t.sid != step.sid { assert TokenOk(s, t); }
    }
    if step.IssueRefresh? { assert FlightOk(s, s.flights[step.f]); }
  }

  lemma StepKeepsSessionOwners(ttl: Ttl, s: Sys, step: Step)
    requires Good(s) && OneOwner(s) && SessionOwners(s) && Enabled(s, step)
    ensures SessionOwners(Do(ttl, s, step))
  {
    StoreStep(ttl, s, step);
    if step.Rotate? || step.RotateLost? {
      var w := s.flights[step.f];
      assert FlightOk(s, w) && SessionOk(s, w.token.sid);
    }
  }

  ghost predicate LifeInv(ttl: Ttl, s: Sys) { Good(s) && AllShaped(ttl, s) && OneOwner(s) && SessionOwners(s) }

  lemma {:induction false} RunKeepsLife(ttl: Ttl, s: Sys, steps: seq<Step>)
    requires LifeInv(ttl, s) && CanRun(ttl, s, steps)
    ensures LifeInv(ttl, After(ttl, s, steps))
    decreases |steps|
  {
    if steps != [] {
      StepGood(ttl, s, steps[0]);
      StepKeepsShape(ttl, s, steps[0]);
      StepKeepsOwner(ttl, s, steps[0]);
      StepKeepsSessionOwners(ttl, s, steps[0]);
      RunKeepsLife(ttl, Do(ttl, s, steps[0]), steps[1..]);
    }
  }

  lemma InitialLife(ttl: Ttl, s: Sys)
    requires Initial(s)
    ensures LifeInv(ttl, s)
  {
    InitialGood(s);
  }

  /** In every run a token is signed with the lifetime of its kind, and all tokens of a session are for
      its account. */
  lemma SignedTokens(ttl: Ttl, s: Sys, steps: seq<Step>, t: Token)
    requires Initial(s) && CanRun(ttl, s, steps) && t in After(ttl, s, steps).issued
    ensures var s' := After(ttl, s, steps);
      Shaped(ttl, s', t) && (t.sid in s'.sessions ==> s'.sessions[t.sid].uid == t.uid)
  {
    InitialLife(ttl, s);
    RunKeepsLife(ttl, s, steps);
    var s' := After(ttl, s, steps);
    if t.sid in s'.sessions { assert SessionOk(s', t.sid); }
  }

  // ---------------------------------------------------------------- presented alive

  lemma {:induction false} RunPrefix(ttl: Ttl, s: Sys, steps: seq<Step>, n: nat)
    requires CanRun(ttl, s, steps) && n < |steps|
    ensures CanRun(ttl, s, steps[..n]) && CanRun(ttl, s, steps[..n + 1])
    ensures var before := After(ttl, s, steps[..n]);
      Enabled(before, steps[n]) && After(ttl, s, steps[..n + 1]) == Do(ttl, before, steps[n])
    decreases n
  {
    if n == 0 {
      assert steps[..0] == [] && steps[..1] == [steps[0]] && [steps[0]][1..] == [];
      var s1 := Do(ttl, s, steps[0]);
      assert CanRun(ttl, s1, []) && After(ttl, s1, []) == s1;
    } else {
      RunPrefix(ttl, Do(ttl, s, steps[0]), steps[1..], n - 1);
      assert steps[1..][n - 1] == steps[n];
      assert steps[..n][0] == steps[0] && steps[..n][1..] == steps[1..][..n - 1];
      assert steps[..n + 1][0] == steps[0] && steps[..n + 1][1..] == steps[1..][..n];
    }
  }

  /** The step by which the request of a flight was begun. */
  ghost predicate BegunIn(w: Flight, steps: seq<Step>) {
    && (w.AuthParsed? || w.AuthFound? ==> BeginAuth(w.token) in steps)
    && (w.RefreshParsed? || w.RefreshChecked? || w.RefreshIssued? || w.RefreshRejected? ==>
          BeginRefresh(w.token) in steps)
  }

  /** Every request under way, and every one that succeeded, presented its token. */
  ghost predicate Traced(s: Sys, steps: seq<Step>) {
    && (forall f :: f in s.flights ==> BegunIn(s.flights[f], steps))
    && (forall t :: t in s.accepted ==> BeginAuth(t) in steps)
    && (forall t :: t in s.exchanged ==> BeginRefresh(t) in steps)
  }

  lemma FlightsTraced(ttl: Ttl, s: Sys, step: Step, steps: seq<Step>, f: nat)
    requires Enabled(s, step) && Traced(s, steps) && f in Do(ttl, s, step).flights
    ensures BegunIn(Do(ttl, s, step).flights[f], steps + [step])
  {
    assert step in steps + [step] && forall x :: x in steps ==> x in steps + [step];
    assert f in s.flights ==> BegunIn(s.flights[f], steps);
  }

  lemma StepTraced(ttl: Ttl, s: Sys, step: Step, steps: seq<Step>)
    requires Enabled(s, step) && Traced(s, steps)
    ensures Traced(Do(ttl, s, step), steps + [step])
  {
    var s' := Do(ttl, s, step);
    HistoryStep(ttl, s, step);
    forall f | f in s'.flights ensures BegunIn(s'.flights[f], steps + [step]) { FlightsTraced(ttl, s, step, steps, f); }
    if step.Rotate? || step.AcceptAuth? { assert BegunIn(s.flights[step.f], steps); }
  }

  lemma {:induction false} RunTraced(ttl: Ttl, s: Sys, steps: seq<Step>, n: nat)
    requires Initial(s) && CanRun(ttl, s, steps) && n <= |steps|
    ensures CanRun(ttl, s, steps[..n]) && Traced(After(ttl, s, steps[..n]), steps[..n])
    decreases n
  {
    if n > 0 {
      RunTraced(ttl, s, steps, n - 1);
      RunPrefix(ttl, s, steps, n - 1);
      StepTraced(ttl, After(ttl, s, steps[..n - 1]), steps[n - 1], steps[..n - 1]);
      assert steps[..n - 1] + [steps[n - 1]] == steps[..n];
    } else {
      assert steps[..0] == [];
    }
  }

  /** The token was handed out, and is of this kind, in form, issued and not expired. */
  ghost predicate Presentable(s: Sys, t: Token, kind: Kind) {
    && t in s.delivered && t.kind == kind && t.sid != "" && t.fid == t.sid && t.version != 0
    && t.issued <= s.now < t.expires
  }

  ghost predicate PresentableAt(ttl: Ttl, s: Sys, steps: seq<Step>, n: nat, t: Token, kind: Kind)
    requires n <= |steps|
  {
    CanRun(ttl, s, steps[..n]) && Presentable(After(ttl, s, steps[..n]), t, kind)
  }

  lemma PresentedIff(s: Sys, t: Token)
    ensures Enabled(s, BeginAuth(t)) <==> Presentable(s, t, Access)
    ensures Enabled(s, BeginRefresh(t)) <==> Presentable(s, t, Refresh)
  {
  }

  /** In every run a token that was accepted, or exchanged, had been presented as one of the right kind
      before it expired. */
  lemma PresentedAlive(ttl: Ttl, s: Sys, steps: seq<Step>, t: Token, kind: Kind)
    requires Initial(s) && CanRun(ttl, s, steps)
    requires t in if kind.Access? then After(ttl, s, steps).accepted else After(ttl, s, steps).exchanged
    ensures exists n :: 0 <= n < |steps| && PresentableAt(ttl, s, steps, n, t, kind)
  {
    RunTraced(ttl, s, steps, |steps|);
    assert steps[..|steps|] == steps;
    var step := if kind.Access? then BeginAuth(t) else BeginRefresh(t);
    assert step in steps;
    var n :| 0 <= n < |steps| && steps[n] == step;
    RunPrefix(ttl, s, steps, n);
    PresentedIff(After(ttl, s, steps[..n]), t);
    assert PresentableAt(ttl, s, steps, n, t, kind);
  }

  /** A login goes on exactly for an active account, with its version. */
  lemma LoginIff(ttl: Ttl, s: Sys, uid: nat)
    ensures Enabled(s, BeginLogin(uid)) <==> uid in s.db.users && s.db.users[uid].status == Active
    ensures Enabled(s, BeginLogin(uid)) ==>
      Do(ttl, s, BeginLogin(uid)).flights == s.flights[s.nextFlight :=
        LoginRead(uid, if s.db.users[uid].version == 0 then 1 else s.db.users[uid].version)]
  {
  }

  /** A refresh that has signed its pair is rejected exactly when the presented token is not the current one
      of its session. */
  lemma RejectedIff(s: Sys, f: nat)
    requires f in s.flights && s.flights[f].RefreshIssued?
    ensures var t := s.flights[f].token;
      && (Enabled(s, Rotate(f)) <==> t.sid in s.sessions && s.sessions[t.sid].current == t)
      && (Enabled(s, RotateFails(f)) <==> !Enabled(s, Rotate(f)))
  {
  }

  /** When it was accepted, or exchanged, it carried the version of an active account. */
  lemma AcceptedForItsAccount(s: Sys, f: nat)
    requires Enabled(s, AcceptAuth(f)) || Enabled(s, CheckRefresh(f))
    ensures var t := s.flights[f].token;
      && t.uid in s.db.users && s.db.users[t.uid].status == Active
      && t.version == if s.db.users[t.uid].version == 0 then 1 else s.db.users[t.uid].version
  {
  }

  // ---------------------------------------------------------------- expiry

  lemma {:induction false} ClockAdvances(ttl: Ttl, s: Sys, steps: seq<Step>)
    requires CanRun(ttl, s, steps)
    ensures s.now <= After(ttl, s, steps).now
    decreases |steps|
  {
    if steps != [] {
      ClockStep(ttl, s, steps[0]);
      ClockAdvances(ttl, Do(ttl, s, steps[0]), steps[1..]);
    }
  }

  /** No request with the token is under way. */
  ghost predicate NotInFlight(s: Sys, t: Token) {
    forall f :: f in s.flights && !s.flights[f].LoginRead? && !s.flights[f].LoginIssued? ==> s.flights[f].token != t
  }

  lemma StepOfExpired(ttl: Ttl, s: Sys, step: Step, t: Token)
    requires Enabled(s, step) && t.expires <= s.now && NotInFlight(s, t)
    ensures var s' := Do(ttl, s, step);
      NotInFlight(s', t) && s'.exchanged[t] == s.exchanged[t] && s'.accepted[t] == s.accepted[t]
  {
    HistoryStep(ttl, s, step);
    PresentedIff(s, t);
  }

  lemma {:induction false} NothingForExpired(ttl: Ttl, s: Sys, steps: seq<Step>, t: Token)
    requires CanRun(ttl, s, steps) && t.expires <= s.now && NotInFlight(s, t)
    ensures After(ttl, s, steps).exchanged[t] == s.exchanged[t] && After(ttl, s, steps).accepted[t] == s.accepted[t]
    decreases |steps|
  {
    if steps != [] {
      ClockStep(ttl, s, steps[0]);
      StepOfExpired(ttl, s, steps[0], t);
      NothingForExpired(ttl, Do(ttl, s, steps[0]), steps[1..], t);
    }
  }

  /** Once the clock has reached its end a token can never be presented again, and nothing is accepted or
      exchanged for it any more, except by a request already under way. */
  lemma ExpiredForGood(ttl: Ttl, s: Sys, steps: seq<Step>, t: Token)
    requires CanRun(ttl, s, steps) && t.expires <= s.now
    ensures var s' := After(ttl, s, steps);
      && !Enabled(s', BeginAuth(t)) && !Enabled(s', BeginRefresh(t)) && !Refreshable(ttl, s', t)
      && (NotInFlight(s, t) ==> s'.exchanged[t] == s.exchanged[t] && s'.accepted[t] == s.accepted[t])
  {
    ClockAdvances(ttl, s, steps);
    PresentedIff(After(ttl, s, steps), t);
    RefreshableIff(ttl, After(ttl, s, steps), t);
    if NotInFlight(s, t) { NothingForExpired(ttl, s, steps, t); }
  }

  // ---------------------------------------------------------------- logout and revocation

  /** Neither refreshed nor newly authenticated in what follows. */
  ghost predicate Ended(ttl: Ttl, s: Sys, after: Sys, t: Token) {
    && t.sid !in after.sessions && !Refreshable(ttl, after, t) && after.exchanged[t] == s.exchanged[t]
    && (NoAuthInFlight(s, t.sid) ==> after.accepted[t] == s.accepted[t])
  }

  lemma GoneIsEnded(ttl: Ttl, s: Sys, steps: seq<Step>, t: Token)
    requires Good(s) && Gone(s, t.sid) && CanRun(ttl, s, steps)
    ensures Ended(ttl, s, After(ttl, s, steps), t)
  {
    GoneForGood(ttl, s, steps, t);
    RefreshableIff(ttl, After(ttl, s, steps), t);
  }

  /** A logout ends all tokens handed out for the session, for good, and no other session. */
  lemma LogoutEndsSession(ttl: Ttl, s: Sys, sid: string, steps: seq<Step>, t: Token)
    requires Good(s) && t in s.delivered && t.sid == sid && CanRun(ttl, Do(ttl, s, Logout(sid)), steps)
    ensures Ended(ttl, Do(ttl, s, Logout(sid)), After(ttl, Do(ttl, s, Logout(sid)), steps), t)
    ensures forall x :: x != sid && x in s.sessions ==>
      x in Do(ttl, s, Logout(sid)).sessions && Do(ttl, s, Logout(sid)).sessions[x] == s.sessions[x]
  {
    var s' := Do(ttl, s, Logout(sid));
    StepGood(ttl, s, Logout(sid));
    StoreStep(ttl, s, Logout(sid));
    CreatedStays(ttl, s, Logout(sid));
    GoneIsEnded(ttl, s', steps, t);
  }

  lemma CreatedStays(ttl: Ttl, s: Sys, step: Step)
    requires Enabled(s, step)
    ensures s.created <= Do(ttl, s, step).created
  {
  }

  /** A revocation ends all tokens handed out to the user, for good, and no session of anybody else. */
  lemma RevocationEndsAll(ttl: Ttl, s: Sys, uid: nat, steps: seq<Step>, t: Token)
    requires LifeInv(ttl, s) && t in s.delivered && t.uid == uid && CanRun(ttl, Do(ttl, s, RevokeUser(uid)), steps)
    ensures Ended(ttl, Do(ttl, s, RevokeUser(uid)), After(ttl, Do(ttl, s, RevokeUser(uid)), steps), t)
    ensures forall x :: x in s.sessions && s.sessions[x].uid != uid ==>
      x in Do(ttl, s, RevokeUser(uid)).sessions && Do(ttl, s, RevokeUser(uid)).sessions[x] == s.sessions[x]
  {
    var s' := Do(ttl, s, RevokeUser(uid));
    StepGood(ttl, s, RevokeUser(uid));
    StoreStep(ttl, s, RevokeUser(uid));
    CreatedStays(ttl, s, RevokeUser(uid));
    if t.sid in s.sessions { assert SessionOk(s, t.sid); }
    GoneIsEnded(ttl, s', steps, t);
  }
}
