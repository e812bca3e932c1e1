/** Which requests share a record: those of one actor, for one operation, under one key. */
module RequestScopes {
  import opened Options
  import opened Text
  import opened Idempotency

  /** Surrounding space takes no part in a key. */
  ghost predicate SameKey(a: Request, b: Request) {
    a.actor == b.actor && a.operation == b.operation && Trim(a.key) == Trim(b.key)
  }

  lemma ScopesAgreeIff(a: Request, b: Request)
    ensures ScopeOf(a) == ScopeOf(b) <==> SameKey(a, b)
  {
  }

  /** What a request must have to be begun: an actor, an operation, a key of at most 128 bytes and a
      hash of 64. */
  ghost predicate WellFormed(r: Request) {
    && r.actor > 0 && (exists i :: 0 <= i < |r.operation| && !IsSpace(r.operation[i]))
    && (exists i :: 0 <= i < |r.key| && !IsSpace(r.key[i])) && Utf8Length(Trim(r.key)) <= 128
    && Utf8Length(r.requestHash) == 64
  }

  lemma BegunIffWellFormed(s: State, t: nat, r: Request)
    ensures Enabled(s, Begin(t, r)) <==> t !in s.txs && WellFormed(r)
  {
    TrimIsEmptyIff(r.operation);
    TrimIsEmptyIff(r.key);
  }

  // ---------------------------------------------------------------- the request of a transaction

  /** A transaction works under the scope of its own request. */
  ghost predicate OwnScopes(s: State) {
    forall t :: t in s.txs ==>
      s.txs[t].scope == ScopeOf(s.txs[t].request) && s.txs[t].requestHash == s.txs[t].request.requestHash
  }

  /** A reuse conflict is with a recorded request of another hash. */
  ghost predicate ConflictsAreRecorded(s: State) {
    forall t :: t in s.txs && s.txs[t].phase == Refused(KeyReused) ==>
      s.txs[t].scope in s.table && s.table[s.txs[t].scope].requestHash != s.txs[t].requestHash
  }

  /** Of the transactions only `t` changed, and not its request. */
  ghost predicate SameRequests(s: State, after: State, t: nat) {
    && t in s.txs && t in after.txs && after.txs == s.txs[t := after.txs[t]]
    && after.txs[t].request == s.txs[t].request && after.txs[t].scope == s.txs[t].scope
    && after.txs[t].requestHash == s.txs[t].requestHash
  }

  lemma StepKeepsRequest(s: State, e: Event)
    requires Enabled(s, e) && !e.Begin?
    ensures SameRequests(s, Step(s, e), e.t)
  {
    if e.Lookup? || e.Insert? || e.InsertError? || e.Fallback? { ReservingKeepsRequest(s, e); }
  }

  lemma ReservingKeepsRequest(s: State, e: Event)
    requires Enabled(s, e) && (e.Lookup? || e.Insert? || e.InsertError? || e.Fallback?)
    ensures SameRequests(s, Step(s, e), e.t)
  {
  }

  lemma BeginSetsRequest(s: State, e: Event)
    requires Enabled(s, e) && e.Begin?
    ensures e.t !in s.txs && e.t in Step(s, e).txs && Step(s, e).txs == s.txs[e.t := Step(s, e).txs[e.t]]
    ensures var tx := Step(s, e).txs[e.t];
      tx.request == e.request && tx.scope == ScopeOf(e.request) && tx.requestHash == e.request.requestHash
      && tx.phase.Begun?
  {
  }

  lemma StepKeepsScopes(s: State, e: Event)
    requires Enabled(s, e) && OwnScopes(s)
    ensures OwnScopes(Step(s, e))
  {
    if e.Begin? { BeginSetsRequest(s, e); } else { StepKeepsRequest(s, e); }
  }

  lemma ConflictStep(s: State, e: Event)
    requires Enabled(s, e) && Step(s, e).txs[e.t].phase == Refused(KeyReused)
    requires e.t in s.txs && s.txs[e.t].phase != Refused(KeyReused)
    ensures s.txs[e.t].scope in s.table && s.table[s.txs[e.t].scope].requestHash != s.txs[e.t].requestHash
  {
  }

  lemma StepKeepsConflicts(s: State, e: Event)
    requires Inv(s) && Enabled(s, e) && ConflictsAreRecorded(s)
    ensures ConflictsAreRecorded(Step(s, e))
  {
    var after := Step(s, e);
    TableGrows(s, e);
    if e.Begin? { BeginSetsRequest(s, e); } else { StepKeepsRequest(s, e); }
    forall t | t in after.txs && after.txs[t].phase == Refused(KeyReused)
      ensures after.txs[t].scope in after.table
      ensures after.table[after.txs[t].scope].requestHash != after.txs[t].requestHash
    {
      if t == e.t && s.txs[t].phase != Refused(KeyReused) { ConflictStep(s, e); }
    }
  }

  /** The transaction's own work committed. */
  ghost predicate Served(s: State, u: nat) { u in s.txs && s.txs[u].phase.Committed? && !s.txs[u].phase.replayed }

  /** The committed work of a transaction is in the history, with all its effects. */
  ghost predicate ServedIsDone(s: State) {
    forall u :: Served(s, u) ==> Done(u, s.txs[u].scope, s.txs[u].effects) in s.business
  }

  lemma CommitServes(s: State, t: nat)
    requires Enabled(s, Commit(t)) && Served(Step(s, Commit(t)), t)
    ensures var after := Step(s, Commit(t));
      after.business == s.business + [Done(t, after.txs[t].scope, after.txs[t].effects)]
  {
  }

  lemma OthersServeNobody(s: State, e: Event)
    requires Enabled(s, e) && !e.Commit? && !e.RunCallbacks?
    ensures e.t in Step(s, e).txs && !Served(Step(s, e), e.t)
  {
  }

  lemma CallbacksKeepWork(s: State, t: nat)
    requires Enabled(s, RunCallbacks(t))
    ensures var after := Step(s, RunCallbacks(t));
      after.txs == s.txs[t := s.txs[t].(ran := true)] && after.business == s.business
  {
  }

  lemma ServedStep(s: State, e: Event, u: nat)
    requires Enabled(s, e) && Served(Step(s, e), u)
    ensures var tx := Step(s, e).txs[u];
      if Served(s, u) && e != Commit(u) then tx.scope == s.txs[u].scope && tx.effects == s.txs[u].effects
      else Done(u, tx.scope, tx.effects) in Step(s, e).business
  {
    if e.RunCallbacks? {
      CallbacksKeepWork(s, e.t);
    } else {
      StepFrame(s, e);
      if u == e.t {
        if e.Commit? { CommitServes(s, u); } else { OthersServeNobody(s, e); }
      }
    }
  }

  lemma StepKeepsServed(s: State, e: Event)
    requires Inv(s) && Enabled(s, e) && ServedIsDone(s)
    ensures ServedIsDone(Step(s, e))
  {
    var after := Step(s, e);
    TableGrows(s, e);
    forall u | Served(after, u) ensures Done(u, after.txs[u].scope, after.txs[u].effects) in after.business {
      ServedStep(s, e, u);
    }
  }

  ghost predicate ScopesInv(s: State) { Inv(s) && OwnScopes(s) && ConflictsAreRecorded(s) && ServedIsDone(s) }

  lemma {:induction false} RunKeepsScopes(s: State, es: seq<Event>)
    requires ScopesInv(s) && Run(s, es).Some?
    ensures ScopesInv(Run(s, es).value)
    decreases |es|
  {
    if es != [] {
      StepKeepsInv(s, es[0]);
      StepKeepsScopes(s, es[0]);
      StepKeepsConflicts(s, es[0]);
      StepKeepsServed(s, es[0]);
      RunKeepsScopes(Step(s, es[0]), es[1..]);
    }
  }

  lemma ReachableScopes(s: State)
    requires Reachable(s)
    ensures ScopesInv(s)
  {
    var s0 :| Init(s0) && Reaches(s0, s);
    var es :| Run(s0, es) == Some(s);
    ReachableInv(s);
    InitInv(s0);
    RunKeepsScopes(s0, es);
  }

  /** In every run the request of a transaction is the one it was begun with. */
  lemma {:induction false} RequestStays(s: State, es: seq<Event>, t: nat)
    requires Run(s, es).Some? && t in s.txs
    ensures t in Run(s, es).value.txs && Run(s, es).value.txs[t].request == s.txs[t].request
    decreases |es|
  {
    if es != [] {
      if es[0].Begin? { BeginSetsRequest(s, es[0]); } else { StepKeepsRequest(s, es[0]); }
      RequestStays(Step(s, es[0]), es[1..], t);
    }
  }

  lemma {:induction false} BegunRequest(s: State, es: seq<Event>, i: nat)
    requires Run(s, es).Some? && i < |es| && es[i].Begin?
    ensures es[i].t in Run(s, es).value.txs && Run(s, es).value.txs[es[i].t].request == es[i].request
    decreases |es|
  {
    if i == 0 {
      BeginSetsRequest(s, es[0]);
      RequestStays(Step(s, es[0]), es[1..], es[0].t);
    } else {
      assert es[1..][i - 1] == es[i];
      BegunRequest(Step(s, es[0]), es[1..], i - 1);
    }
  }

  // ---------------------------------------------------------------- laws on requests

  lemma RecordHasServer(s: State, sc: Scope) returns (u: nat)
    requires Inv(s) && sc in s.table
    ensures Served(s, u) && s.txs[u].scope == sc
    ensures s.table[sc] == Record(s.txs[u].requestHash, true, s.txs[u].phase.reply)
  {
    assert WasDone(s, sc);
    var i :| 0 <= i < |s.business| && s.business[i].scope == sc;
    assert IsDone(s, s.business[i]);
    u := s.business[i].tx;
  }

  /** For one actor, operation and key work commits at most once. */
  lemma OncePerKey(s: State, t: nat, u: nat)
    requires Reachable(s) && Served(s, t) && Served(s, u) && SameKey(s.txs[t].request, s.txs[u].request)
    ensures t == u && Done(t, s.txs[t].scope, s.txs[t].effects) in s.business
  {
    ReachableScopes(s);
    ScopesAgreeIff(s.txs[t].request, s.txs[u].request);
    OneWorkPerScope(s, t, u);
  }

  lemma OneWorkPerScope(s: State, t: nat, u: nat)
    requires WorkIsRecorded(s) && ServedIsDone(s) && Served(s, t) && Served(s, u) && s.txs[t].scope == s.txs[u].scope
    ensures t == u
  {
    var i :| 0 <= i < |s.business| && s.business[i] == Done(t, s.txs[t].scope, s.txs[t].effects);
    var j :| 0 <= j < |s.business| && s.business[j] == Done(u, s.txs[u].scope, s.txs[u].effects);
    assert i == j;
  }

  /** What two answered requests of one actor, operation and key have in common. */
  lemma SameKeySameReply(s: State, t: nat, u: nat)
    requires Reachable(s) && t in s.txs && u in s.txs && SameKey(s.txs[t].request, s.txs[u].request)
    requires s.txs[t].phase.Committed? && s.txs[u].phase.Committed?
    ensures s.txs[t].phase.reply == s.txs[u].phase.reply
    ensures s.txs[t].request.requestHash == s.txs[u].request.requestHash
  {
    ReachableScopes(s);
    ScopesAgreeIff(s.txs[t].request, s.txs[u].request);
    RepliesAgree(s, t, u);
  }

  ghost predicate Explains(s: State, u: nat, t: nat)
    requires Served(s, u) && t in s.txs
    requires s.txs[t].phase.Replaying? || s.txs[t].phase.Committed? || s.txs[t].phase.Refused?
  {
    if s.txs[t].phase.Refused? then s.txs[u].request.requestHash != s.txs[t].request.requestHash
    else s.txs[u].request.requestHash == s.txs[t].request.requestHash && s.txs[u].phase.reply == s.txs[t].phase.reply
  }

  /** A transaction is answered from a record, or refused for a reused key, only because another one of
      the same actor, operation and key has committed its work: with the same request and that reply, or
      with another request. */
  lemma AnsweredForItsOwnKey(s: State, t: nat)
    requires Reachable(s) && t in s.txs
    requires s.txs[t].phase.Replaying? || s.txs[t].phase == Refused(KeyReused)
          || (s.txs[t].phase.Committed? && s.txs[t].phase.replayed)
    ensures exists u :: u != t && Served(s, u) && SameKey(s.txs[u].request, s.txs[t].request) && Explains(s, u, t)
  {
    ReachableScopes(s);
    var u := RecordHasServer(s, s.txs[t].scope);
    ScopesAgreeIff(s.txs[u].request, s.txs[t].request);
  }

  /** What a lookup finds: the reply, or a conflict, if one of the same actor, operation and key has
      committed its work, and otherwise nothing, so that the transaction goes on to work. */
  lemma LookupIff(s: State, t: nat)
    requires Reachable(s) && Enabled(s, Lookup(t))
    ensures var p := Step(s, Lookup(t)).txs[t].phase;
      && (p == Missing <==> forall u :: Served(s, u) ==> !SameKey(s.txs[u].request, s.txs[t].request))
      && forall u :: Served(s, u) && SameKey(s.txs[u].request, s.txs[t].request) ==>
           p == if s.txs[u].request.requestHash == s.txs[t].request.requestHash then Replaying(s.txs[u].phase.reply)
                else Refused(KeyReused)
  {
    ReachableScopes(s);
    forall u | Served(s, u) ensures SameKey(s.txs[u].request, s.txs[t].request) <==> s.txs[u].scope == s.txs[t].scope {
      ScopesAgreeIff(s.txs[u].request, s.txs[t].request);
    }
    if s.txs[t].scope in s.table {
      var u := RecordHasServer(s, s.txs[t].scope);
      DifferentRequestIsRefused(s, t);
    } else {
      LookupFindsNothing(s, t);
    }
  }

  lemma LookupFindsNothing(s: State, t: nat)
    requires Enabled(s, Lookup(t)) && s.txs[t].scope !in s.table
    ensures Step(s, Lookup(t)).txs[t].phase == Missing
  {
  }

  // ---------------------------------------------------------------- one at a time

  /** The transaction has inserted its row and is not over. */
  ghost predicate Holding(s: State, u: nat) {
    u in s.txs &&
    (s.txs[u].phase.Reserved? || s.txs[u].phase.Worked? || s.txs[u].phase.Stored? || s.txs[u].phase.Failing?)
  }

  /** While a transaction works, another one of the same actor, operation and key waits: it neither sees the
      row nor inserts one. */
  lemma SameKeyWaits(s: State, t: nat, u: nat)
    requires Reachable(s) && Holding(s, u) && t in s.txs && t != u && SameKey(s.txs[t].request, s.txs[u].request)
    ensures !Enabled(s, Lookup(t)) && !Enabled(s, Insert(t)) && !Enabled(s, Fallback(t)) && !Holding(s, t)
  {
    ReachableScopes(s);
    ScopesAgreeIff(s.txs[t].request, s.txs[u].request);
    assert s.pending[s.txs[u].scope] == OwnRow(u, s.txs[u]);
  }

  /** A row that was found stays locked until the transaction that found it is over: the others wait. */
  lemma FoundRowIsLocked(s: State, t: nat, u: nat)
    requires Enabled(s, Lookup(t)) && s.txs[t].scope in s.table
    requires u in s.txs && u != t && s.txs[u].scope == s.txs[t].scope
    ensures var s' := Step(s, Lookup(t));
      && s'.locks == s.locks[s.txs[t].scope := t]
      && !Enabled(s', Lookup(u)) && !Enabled(s', Insert(u)) && !Enabled(s', Fallback(u))
  {
  }

  lemma FallbackLocks(s: State, t: nat)
    requires Enabled(s, Fallback(t)) && s.txs[t].scope in s.table
    ensures Step(s, Fallback(t)).locks == s.locks[s.txs[t].scope := t]
  {
  }

  // ---------------------------------------------------------------- what the work did

  /** The transaction has done this work. */
  ghost predicate HasDone(s: State, t: nat, effects: seq<Effect>, callbacks: seq<Callback>) {
    && t in s.txs && s.txs[t].effects == effects && s.txs[t].callbacks == callbacks
    && !s.txs[t].phase.Reserved? && !Idle(s.txs[t].phase)
  }

  lemma WorkDone(s: State, e: Event)
    requires Enabled(s, e) && e.Work?
    ensures HasDone(Step(s, e), e.t, e.effects, e.callbacks)
  {
  }

  lemma DoneStaysDone(s: State, e: Event, t: nat, effects: seq<Effect>, callbacks: seq<Callback>)
    requires Enabled(s, e) && HasDone(s, t, effects, callbacks)
    ensures HasDone(Step(s, e), t, effects, callbacks)
  {
    if e.Begin? {
      BeginSetsRequest(s, e);
    } else {
      StepKeepsRequest(s, e);
      if e.t == t { FinishingKeepsWork(s, e); }
    }
  }

  lemma FinishingKeepsWork(s: State, e: Event)
    requires Enabled(s, e) && !e.Begin? && !s.txs[e.t].phase.Reserved? && !Idle(s.txs[e.t].phase)
    ensures var tx := Step(s, e).txs[e.t];
      tx.effects == s.txs[e.t].effects && tx.callbacks == s.txs[e.t].callbacks && !tx.phase.Reserved? && !Idle(tx.phase)
  {
    assert e.Complete? || e.Commit? || e.Abort? || e.RunCallbacks?;
  }

  lemma {:induction false} RunKeepsDone(s: State, es: seq<Event>, t: nat, effects: seq<Effect>,
                                        callbacks: seq<Callback>)
    requires Run(s, es).Some? && HasDone(s, t, effects, callbacks)
    ensures HasDone(Run(s, es).value, t, effects, callbacks)
    decreases |es|
  {
    if es != [] {
      DoneStaysDone(s, es[0], t, effects, callbacks);
      RunKeepsDone(Step(s, es[0]), es[1..], t, effects, callbacks);
    }
  }

  /** In every run: if the work of a transaction that did these effects and registered these callbacks
      commits, the history holds exactly these effects for it, and the callbacks run for it so far are
      none, or exactly these, in order. */
  lemma WorkIsKept(s: State, e: Event, es: seq<Event>)
    requires Reachable(s) && Enabled(s, e) && e.Work? && Run(Step(s, e), es).Some?
    ensures var after := Run(Step(s, e), es).value;
      && (Served(after, e.t) ==> Done(e.t, after.txs[e.t].scope, e.effects) in after.business)
      && (CallbacksOf(after.sideEffects, e.t) == [] || CallbacksOf(after.sideEffects, e.t) == e.callbacks)
  {
    var after := Run(Step(s, e), es).value;
    WorkDone(s, e);
    RunKeepsDone(Step(s, e), es, e.t, e.effects, e.callbacks);
    ReachableStep(s, e);
    ReachableRun(Step(s, e), es);
    ReachableScopes(after);
    CallbacksOnceInOrder(after, e.t);
  }
}
