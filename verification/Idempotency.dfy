/** The idempotent write protocol: `Execute` as the steps of many concurrent transactions over one
    table with a unique index on (actor, operation, key hash).

    A transaction that has inserted a row holds that index entry until it ends: lookups for update
    and inserts on the same entry by others wait (their step is not enabled).  Any transaction may
    fail at any time (deadlock, lost connection, error from a statement) and is then rolled back.
    SHA-256 is taken as injective and JSON encoding of headers as invertible. */
module Idempotency {
  import opened Options
  import opened Text
  import opened HttpHeaders

  const MAX_KEY_LENGTH := 128
  const MAX_RESPONSE_BYTES := 65536

  /** What the column of the response body, a BLOB, can hold. */
  const BLOB_BYTES := 65535

  const HASH_LENGTH := 64

  datatype Digest = Sha256(text: string)

  datatype Request = Request(actor: nat, operation: string, key: string, requestHash: string)

  /** What the unique index is over. */
  datatype Scope = Scope(actor: nat, operation: string, keyHash: Digest)

  function ScopeOf(r: Request): Scope { Scope(r.actor, r.operation, Sha256(Trim(r.key))) }

  datatype RequestError = MissingActorOrOperation | InvalidKey | InvalidHash

  /** `validateRequest` */
  function ValidateRequest(r: Request): Option<RequestError> {
    var key := Trim(r.key);
    if r.actor == 0 || Trim(r.operation) == "" then Some(MissingActorOrOperation)
    else if key == "" || Utf8Length(key) > MAX_KEY_LENGTH then Some(InvalidKey)
    else if Utf8Length(r.requestHash) != HASH_LENGTH then Some(InvalidHash)
    else None
  }

  /** The stored result of the first execution, and what is sent to the client. */
  datatype Reply = Reply(status: int, body: seq<nat>, headers: Headers, resourceType: string, resourceId: Option<nat>)

  const NO_REPLY := Reply(0, [], map[], "", None)

  datatype Record = Record(requestHash: string, completed: bool, reply: Reply)

  datatype Refusal = KeyReused | InProgress | ReserveFailed | WorkFailed | InvalidStatus | ResponseTooLarge
      | LostOwnership | StoreFailed

  datatype Phase =
    | Begun
    | Missing                             // the lookup found no row
    | Duplicate                           // the insert failed, the fallback lookup is next
    | Reserved                            // own pending row inserted
    | Worked(reply: Reply)                // the business work ran
    | Stored(reply: Reply)                // own row updated with the reply
    | Replaying(reply: Reply)             // a completed row with the same request was found
    | Refused(refusal: Refusal)           // the transaction function returned an error, without a row
    | Failing(refusal: Refusal)           // ... while holding its own row, which rollback will remove
    | Committed(reply: Reply, replayed: bool)
    | Aborted

  /** The outcome of the business work. */
  datatype Outcome = Failure | Returned(reply: Reply)

  type Effect = nat
  type Callback = nat

  datatype Tx = Tx(request: Request, scope: Scope, requestHash: string, phase: Phase,
                   effects: seq<Effect>, callbacks: seq<Callback>, ran: bool)

  datatype PendingRow = PendingRow(owner: nat, record: Record)

  /** One committed piece of business work. */
  datatype Done = Done(tx: nat, scope: Scope, effects: seq<Effect>)

  datatype State = State(
    table: map<Scope, Record>,            // committed rows
    pending: map<Scope, PendingRow>,      // rows inserted by transactions still open
    locks: map<Scope, nat>,               // committed rows locked for update
    txs: map<nat, Tx>,
    business: seq<Done>,                  // committed business work, in commit order
    sideEffects: seq<(nat, Callback)>)    // callbacks that have run

  datatype Event =
    | Begin(t: nat, request: Request)
    | Lookup(t: nat)
    | Insert(t: nat)
    | InsertError(t: nat)
    | Fallback(t: nat)
    | Work(t: nat, outcome: Outcome, stored: Headers, effects: seq<Effect>, callbacks: seq<Callback>)
    | Complete(t: nat)
    | Commit(t: nat)
    | Abort(t: nat)
    | RunCallbacks(t: nat)

  ghost predicate Init(s: State) {
    s.table == map[] && s.pending == map[] && s.locks == map[] && s.txs == map[] && s.business == []
        && s.sideEffects == []
  }

  // ---------------------------------------------------------------- steps

  predicate Open(p: Phase) { !p.Committed? && !p.Aborted? }

  /** The transaction holds an uncommitted row of its own. */
  predicate Holds(p: Phase) { p.Reserved? || p.Worked? || p.Stored? || p.Failing? }

  /** Nobody else holds the index entry or the row. */
  predicate Unblocked(s: State, t: nat, sc: Scope) {
    && (sc in s.pending ==> s.pending[sc].owner == t)
    && (sc in s.locks ==> s.locks[sc] == t)
  }

  ghost predicate Enabled(s: State, e: Event) {
    if e.Begin? then e.t !in s.txs && ValidateRequest(e.request).None?
    else e.t in s.txs && EnabledIn(s, s.txs[e.t], e)
  }

  ghost predicate EnabledIn(s: State, tx: Tx, e: Event) {
    match e
    case Begin(_, _) => false
    case Lookup(t) => tx.phase.Begun? && Unblocked(s, t, tx.scope)
    case Insert(t) => tx.phase.Missing? && Unblocked(s, t, tx.scope)
    case InsertError(t) => tx.phase.Missing?
    case Fallback(t) => tx.phase.Duplicate? && Unblocked(s, t, tx.scope)
    case Work(t, outcome, stored, _, _) =>
      tx.phase.Reserved? && (outcome.Returned? ==> IsClone(outcome.reply.headers, stored))
    case Complete(t) => tx.phase.Worked?
    case Commit(t) => tx.phase.Stored? || tx.phase.Replaying?
    case Abort(t) => Open(tx.phase)
    case RunCallbacks(t) => tx.phase.Committed? && !tx.ran
  }

  /** `replay`: what a transaction does with the row it found. */
  function Examine(record: Record, requestHash: string): Phase {
    if record.requestHash != requestHash then Refused(KeyReused)
    else if !record.completed then Refused(InProgress)
    else Replaying(record.reply)
  }

  /** The checks on the result of the work.  From here on the result, stored and returned, has the
      cloned headers. */
  function Judge(outcome: Outcome, stored: Headers): Phase {
    match outcome
    case Failure => Failing(WorkFailed)
    case Returned(r) =>
      if r.status < 200 || r.status > 599 then Failing(InvalidStatus)
      else if |r.body| > MAX_RESPONSE_BYTES then Failing(ResponseTooLarge)
      else Worked(r.(headers := stored))
  }

  /** The UPDATE that stores a longer body is an error in strict mode. */
  predicate Storable(r: Reply) { |r.body| <= BLOB_BYTES }

  function SetPhase(s: State, t: nat, p: Phase): State
    requires t in s.txs
  {
    s.(txs := s.txs[t := s.txs[t].(phase := p)])
  }

  /** End of a transaction: its row and its locks are released. */
  function Release(s: State, t: nat): State {
    s.(pending := map sc | sc in s.pending && s.pending[sc].owner != t :: s.pending[sc],
       locks := map sc | sc in s.locks && s.locks[sc] != t :: s.locks[sc])
  }

  function Examined(s: State, t: nat): State
    requires t in s.txs && s.txs[t].scope in s.table
  {
    var tx := s.txs[t];
    SetPhase(s.(locks := s.locks[tx.scope := t]), t, Examine(s.table[tx.scope], tx.requestHash))
  }

  ghost function Step(s: State, e: Event): State
    requires Enabled(s, e)
  {
    if e.Begin? then
      s.(txs := s.txs[e.t := Tx(e.request, ScopeOf(e.request), e.request.requestHash, Begun, [], [], false)])
    else
      var tx := s.txs[e.t];
      match e
      case Begin(_, _) => s
      case Lookup(t) =>
        if tx.scope in s.table then Examined(s, t) else SetPhase(s, t, Missing)
      case Insert(t) =>
        if tx.scope in s.table then SetPhase(s, t, Duplicate)
        else
          var row := PendingRow(t, Record(tx.requestHash, false, NO_REPLY));
          SetPhase(s.(pending := s.pending[tx.scope := row]), t, Reserved)
      case InsertError(t) => SetPhase(s, t, Duplicate)
      case Fallback(t) =>
        if tx.scope in s.table then Examined(s, t) else SetPhase(s, t, Refused(ReserveFailed))
      case Work(t, outcome, stored, effects, callbacks) =>
        s.(txs := s.txs[t := tx.(phase := Judge(outcome, stored), effects := effects, callbacks := callbacks)])
      case Complete(t) =>
        if !Storable(tx.phase.reply) then SetPhase(s, t, Failing(StoreFailed))
        else if tx.scope in s.pending && s.pending[tx.scope].owner == t && !s.pending[tx.scope].record.completed
        then SetPhase(s.(pending := s.pending[tx.scope :=
               PendingRow(t, s.pending[tx.scope].record.(completed := true, reply := tx.phase.reply))]),
               t, Stored(tx.phase.reply))
        else SetPhase(s, t, Failing(LostOwnership))
      case Commit(t) =>
        var rows := map sc | sc in s.pending && s.pending[sc].owner == t :: s.pending[sc].record;
        var after := SetPhase(Release(s, t), t, Committed(tx.phase.reply, tx.phase.Replaying?));
        if tx.phase.Replaying? then after
        else after.(table := s.table + rows, business := s.business + [Done(t, tx.scope, tx.effects)])
      case Abort(t) => SetPhase(Release(s, t), t, Aborted)
      case RunCallbacks(t) =>
        s.(txs := s.txs[t := tx.(ran := true)], sideEffects := s.sideEffects + Tagged(t, tx.callbacks))
  }

  function Tagged(t: nat, cs: seq<Callback>): seq<(nat, Callback)> {
    seq(|cs|, i requires 0 <= i < |cs| => (t, cs[i]))
  }

  // ---------------------------------------------------------------- runs

  ghost function Run(s: State, es: seq<Event>): Option<State>
    decreases |es|
  {
    if es == [] then Some(s)
    else if Enabled(s, es[0]) then Run(Step(s, es[0]), es[1..])
    else None
  }

  ghost predicate Reaches(s: State, after: State) { exists es :: Run(s, es) == Some(after) }

  ghost predicate Reachable(s: State) { exists s0 :: Init(s0) && Reaches(s0, s) }

  // ---------------------------------------------------------------- the invariant

  /** The row a transaction in a holding phase has in the table. */
  function OwnRow(t: nat, tx: Tx): PendingRow {
    PendingRow(t, if tx.phase.Stored? then Record(tx.requestHash, true, tx.phase.reply)
                  else Record(tx.requestHash, false, NO_REPLY))
  }

  ghost predicate HoldersOwnRows(s: State) {
    forall t :: t in s.txs && Holds(s.txs[t].phase) ==>
      s.txs[t].scope in s.pending && s.pending[s.txs[t].scope] == OwnRow(t, s.txs[t])
  }

  ghost predicate RowsHaveHolders(s: State) {
    forall sc :: sc in s.pending ==>
      && sc !in s.table && s.pending[sc].owner in s.txs
      && Holds(s.txs[s.pending[sc].owner].phase) && s.txs[s.pending[sc].owner].scope == sc
  }

  ghost predicate RowsCompleted(s: State) { forall sc :: sc in s.table ==> s.table[sc].completed }

  /** A transaction that answers with a reply answers with the stored one, for the stored request. */
  ghost predicate RepliesStored(s: State) {
    forall t :: t in s.txs && (s.txs[t].phase.Replaying? || s.txs[t].phase.Committed?) ==>
      s.txs[t].scope in s.table && s.table[s.txs[t].scope] == Record(s.txs[t].requestHash, true, s.txs[t].phase.reply)
  }

  ghost predicate NoOddRefusals(s: State) {
    forall t :: t in s.txs ==> s.txs[t].phase != Refused(InProgress) && s.txs[t].phase != Failing(LostOwnership)
  }

  ghost predicate WorkIsRecorded(s: State) {
    && (forall i :: 0 <= i < |s.business| ==> IsDone(s, s.business[i]))
    && (forall i, j :: 0 <= i < j < |s.business| ==> s.business[i].scope != s.business[j].scope)
    && (forall sc :: sc in s.table ==> WasDone(s, sc))
  }

  ghost predicate IsDone(s: State, d: Done) {
    && d.scope in s.table && d.tx in s.txs
    && s.txs[d.tx].phase == Committed(s.table[d.scope].reply, false)
    && s.txs[d.tx].scope == d.scope && s.txs[d.tx].effects == d.effects
  }

  ghost predicate WasDone(s: State, sc: Scope) { exists i :: 0 <= i < |s.business| && s.business[i].scope == sc }

  ghost predicate Inv(s: State) {
    HoldersOwnRows(s) && RowsHaveHolders(s) && RowsCompleted(s) && RepliesStored(s) && NoOddRefusals(s)
        && WorkIsRecorded(s)
  }

  lemma InitInv(s: State)
    requires Init(s)
    ensures Inv(s)
  {
  }

  // ---------------------------------------------------------------- each step keeps it

  /** Nothing committed changed, and of the transactions only `t`. */
  ghost predicate OnlyTx(s: State, after: State, t: nat) {
    && after.table == s.table && after.business == s.business && t in after.txs
    && after.txs == s.txs[t := after.txs[t]]
    && (t in s.txs ==> after.txs[t].scope == s.txs[t].scope && after.txs[t].requestHash == s.txs[t].requestHash)
  }

  ghost predicate OnlyRowOf(s: State, after: State, sc: Scope) {
    && after.pending.Keys + {sc} == s.pending.Keys + {sc}
    && forall x :: x in s.pending && x != sc ==> after.pending[x] == s.pending[x]
  }

  lemma WorkStays(s: State, after: State)
    requires WorkIsRecorded(s) && after.table == s.table && after.business == s.business
    requires forall t :: t in s.txs && s.txs[t].phase.Committed? ==>
      t in after.txs && after.txs[t].phase == s.txs[t].phase && after.txs[t].scope == s.txs[t].scope
          && after.txs[t].effects == s.txs[t].effects
    ensures WorkIsRecorded(after)
  {
    forall i | 0 <= i < |s.business| ensures IsDone(after, after.business[i]) { assert IsDone(s, s.business[i]); }
    forall sc | sc in after.table ensures WasDone(after, sc) { assert WasDone(s, sc); }
  }

  ghost predicate AnswersFromTable(s: State, tx: Tx) {
    tx.phase.Replaying? || tx.phase.Committed? ==>
      tx.scope in s.table && s.table[tx.scope] == Record(tx.requestHash, true, tx.phase.reply)
  }

  lemma RepliesKept(s: State, after: State, t: nat)
    requires RepliesStored(s) && OnlyTx(s, after, t) && AnswersFromTable(s, after.txs[t])
    ensures RepliesStored(after)
  {
    forall u | u in after.txs ensures AnswersFromTable(after, after.txs[u]) {
      if u != t { assert AnswersFromTable(s, s.txs[u]); }
    }
  }

  /** The parts of the invariant that do not mention pending rows. */
  lemma RestKept(s: State, after: State, t: nat)
    requires RowsCompleted(s) && RepliesStored(s) && NoOddRefusals(s) && WorkIsRecorded(s)
    requires OnlyTx(s, after, t) && (t in s.txs ==> !s.txs[t].phase.Committed?)
    requires AnswersFromTable(s, after.txs[t])
    requires after.txs[t].phase != Refused(InProgress) && after.txs[t].phase != Failing(LostOwnership)
    ensures RowsCompleted(after) && RepliesStored(after) && NoOddRefusals(after) && WorkIsRecorded(after)
  {
    WorkStays(s, after);
    RepliesKept(s, after, t);
  }

  lemma RowsUntouched(s: State, after: State, t: nat)
    requires HoldersOwnRows(s) && RowsHaveHolders(s) && OnlyTx(s, after, t) && after.pending == s.pending
    requires t in s.txs ==> !Holds(s.txs[t].phase)
    requires !Holds(after.txs[t].phase)
    ensures HoldersOwnRows(after) && RowsHaveHolders(after)
  {
    forall u | u in after.txs && Holds(after.txs[u].phase)
      ensures after.txs[u].scope in after.pending && after.pending[after.txs[u].scope] == OwnRow(u, after.txs[u])
    {
      assert u in s.txs && s.txs[u] == after.txs[u];
    }
  }

  /** A step of a transaction that holds no row before or after. */
  lemma RowlessStep(s: State, after: State, t: nat)
    requires Inv(s) && OnlyTx(s, after, t) && after.pending == s.pending
    requires t in s.txs ==> !s.txs[t].phase.Committed? && !Holds(s.txs[t].phase)
    requires !Holds(after.txs[t].phase) && after.txs[t].phase != Refused(InProgress)
        && AnswersFromTable(s, after.txs[t])
    ensures Inv(after)
  {
    RestKept(s, after, t);
    RowsUntouched(s, after, t);
  }

  /** A step of a transaction that holds its row afterwards. */
  lemma RowStep(s: State, after: State, t: nat)
    requires Inv(s) && t in s.txs && OnlyTx(s, after, t) && !s.txs[t].phase.Committed?
    requires Holds(after.txs[t].phase) && after.txs[t].phase != Failing(LostOwnership)
    requires OnlyRowOf(s, after, s.txs[t].scope)
    requires s.txs[t].scope !in s.table && (s.txs[t].scope in s.pending ==> s.pending[s.txs[t].scope].owner == t)
    requires s.txs[t].scope in after.pending && after.pending[s.txs[t].scope] == OwnRow(t, after.txs[t])
    ensures Inv(after)
  {
    RestKept(s, after, t);
    RowsWithOneChanged(s, after, t);
  }

  lemma RowsWithOneChanged(s: State, after: State, t: nat)
    requires HoldersOwnRows(s) && RowsHaveHolders(s)
    requires t in s.txs && OnlyTx(s, after, t) && Holds(after.txs[t].phase) && OnlyRowOf(s, after, s.txs[t].scope)
    requires s.txs[t].scope !in s.table && (s.txs[t].scope in s.pending ==> s.pending[s.txs[t].scope].owner == t)
    requires s.txs[t].scope in after.pending && after.pending[s.txs[t].scope] == OwnRow(t, after.txs[t])
    ensures HoldersOwnRows(after) && RowsHaveHolders(after)
  {
    forall u | u in after.txs && Holds(after.txs[u].phase)
      ensures after.txs[u].scope in after.pending && after.pending[after.txs[u].scope] == OwnRow(u, after.txs[u])
    {
      if u != t { assert u in s.txs && s.txs[u] == after.txs[u]; }
    }
  }

  lemma EndKeepsRows(s: State, after: State, t: nat)
    requires HoldersOwnRows(s) && RowsHaveHolders(s) && t in s.txs
    requires after.txs.Keys == s.txs.Keys && (forall u :: u in s.txs && u != t ==> after.txs[u] == s.txs[u])
    requires !Holds(after.txs[t].phase) && after.pending == Release(s, t).pending
    requires forall sc :: sc in after.table ==> sc in s.table || (sc in s.pending && s.pending[sc].owner == t)
    ensures HoldersOwnRows(after) && RowsHaveHolders(after)
  {
    forall u | u in after.txs && Holds(after.txs[u].phase)
      ensures after.txs[u].scope in after.pending && after.pending[after.txs[u].scope] == OwnRow(u, after.txs[u])
    {
      assert u != t && s.txs[u] == after.txs[u];
    }
  }

  lemma AbortInv(s: State, t: nat)
    requires Inv(s) && t in s.txs && Open(s.txs[t].phase)
    ensures Inv(Step(s, Abort(t)))
  {
    var after := Step(s, Abort(t));
    EndKeepsRows(s, after, t);
    RestKept(s, after, t);
  }

  lemma CommitReplayInv(s: State, t: nat)
    requires Inv(s) && t in s.txs && s.txs[t].phase.Replaying?
    ensures Inv(Step(s, Commit(t)))
  {
    var after := Step(s, Commit(t));
    assert AnswersFromTable(s, after.txs[t]);
    EndKeepsRows(s, after, t);
    RestKept(s, after, t);
  }

  /** What committing one's own row leaves in the table. */
  lemma CommittedTable(s: State, t: nat)
    requires Inv(s) && t in s.txs && s.txs[t].phase.Stored?
    ensures Step(s, Commit(t)).table
        == s.table[s.txs[t].scope := Record(s.txs[t].requestHash, true, s.txs[t].phase.reply)]
    ensures s.txs[t].scope !in s.table && s.txs[t].scope in s.pending && s.pending[s.txs[t].scope].owner == t
  {
    assert Holds(s.txs[t].phase);
    var rows := map sc | sc in s.pending && s.pending[sc].owner == t :: s.pending[sc].record;
    assert rows == map[s.txs[t].scope := Record(s.txs[t].requestHash, true, s.txs[t].phase.reply)];
  }

  lemma CommitOwnInv(s: State, t: nat)
    requires Inv(s) && t in s.txs && s.txs[t].phase.Stored?
    ensures Inv(Step(s, Commit(t)))
  {
    CommitRows(s, t);
    CommitReplies(s, t);
    CommitHistory(s, t);
  }

  lemma CommitRows(s: State, t: nat)
    requires Inv(s) && t in s.txs && s.txs[t].phase.Stored?
    ensures HoldersOwnRows(Step(s, Commit(t))) && RowsHaveHolders(Step(s, Commit(t)))
  {
    CommittedTable(s, t);
    EndKeepsRows(s, Step(s, Commit(t)), t);
  }

  lemma CommitReplies(s: State, t: nat)
    requires Inv(s) && t in s.txs && s.txs[t].phase.Stored?
    ensures var after := Step(s, Commit(t)); RowsCompleted(after) && RepliesStored(after) && NoOddRefusals(after)
  {
    CommittedTable(s, t);
  }

  lemma CommitHistory(s: State, t: nat)
    requires Inv(s) && t in s.txs && s.txs[t].phase.Stored?
    ensures WorkIsRecorded(Step(s, Commit(t)))
  {
    var after, tx := Step(s, Commit(t)), s.txs[t];
    CommittedTable(s, t);
    assert after.txs == s.txs[t := tx.(phase := Committed(tx.phase.reply, false))];
    HistoryExtends(s, after, Done(t, tx.scope, tx.effects));
  }

  lemma HistoryExtends(s: State, after: State, d: Done)
    requires WorkIsRecorded(s) && after.business == s.business + [d] && IsDone(after, d) && d.scope !in s.table
    requires after.table == s.table[d.scope := after.table[d.scope]]
    requires forall u :: u in s.txs && u != d.tx ==> u in after.txs && after.txs[u] == s.txs[u]
    requires d.tx in s.txs && !s.txs[d.tx].phase.Committed?
    ensures WorkIsRecorded(after)
  {
    var n := |s.business|;
    forall i | 0 <= i < n ensures IsDone(after, after.business[i]) && after.business[i].scope != d.scope {
      DoneKept(s, after, d, i);
    }
    forall x | x in after.table ensures WasDone(after, x) {
      assert x in s.table ==> WasDone(s, x);
      WasDoneKept(s, after, d, x);
    }
    forall i, j | 0 <= i < j < |after.business| ensures after.business[i].scope != after.business[j].scope {
      if j < n { assert after.business[i] == s.business[i] && after.business[j] == s.business[j]; }
      else { assert after.business[j] == d; }
    }
    assert after.business[n] == d;
  }

  lemma DoneKept(s: State, after: State, d: Done, i: nat)
    requires i < |s.business| && IsDone(s, s.business[i]) && d.scope !in s.table && d.scope in after.table
    requires after.business == s.business + [d] && after.table == s.table[d.scope := after.table[d.scope]]
    requires forall u :: u in s.txs && u != d.tx ==> u in after.txs && after.txs[u] == s.txs[u]
    requires d.tx in s.txs && !s.txs[d.tx].phase.Committed?
    ensures IsDone(after, after.business[i]) && after.business[i].scope != d.scope
  {
  }

  lemma WasDoneKept(s: State, after: State, d: Done, x: Scope)
    requires after.business == s.business + [d] && (x == d.scope || WasDone(s, x))
    ensures WasDone(after, x)
  {
    if x == d.scope {
      assert after.business[|s.business|].scope == x;
    } else {
      var i :| 0 <= i < |s.business| && s.business[i].scope == x;
      assert after.business[i].scope == x;
    }
  }

  lemma ExaminedInv(s: State, t: nat)
    requires Inv(s) && t in s.txs && s.txs[t].scope in s.table
    requires !s.txs[t].phase.Committed? && !Holds(s.txs[t].phase)
    ensures Inv(Examined(s, t))
  {
    RowlessStep(s, Examined(s, t), t);
  }

  /** Whether callbacks have run is invisible to the rest of the protocol. */
  lemma RanIsInvisible(s: State, after: State, t: nat)
    requires Inv(s) && t in s.txs && after.txs == s.txs[t := s.txs[t].(ran := true)]
    requires after.table == s.table && after.pending == s.pending && after.business == s.business
    ensures Inv(after)
  {
    WorkStays(s, after);
    RanKeepsRows(s, after, t);
    assert after.txs[t].phase == s.txs[t].phase;
    assert AnswersFromTable(s, s.txs[t]);
    RepliesKept(s, after, t);
  }

  lemma RanKeepsRows(s: State, after: State, t: nat)
    requires HoldersOwnRows(s) && RowsHaveHolders(s)
    requires t in s.txs && after.txs == s.txs[t := s.txs[t].(ran := true)] && after.table == s.table
        && after.pending == s.pending
    ensures HoldersOwnRows(after) && RowsHaveHolders(after)
  {
    forall u | u in after.txs && Holds(after.txs[u].phase)
      ensures after.txs[u].scope in after.pending && after.pending[after.txs[u].scope] == OwnRow(u, after.txs[u])
    {
      assert Holds(s.txs[u].phase);
    }
  }

  lemma CompleteInv(s: State, t: nat)
    requires Inv(s) && Enabled(s, Complete(t))
    ensures Inv(Step(s, Complete(t)))
  {
    assert Holds(s.txs[t].phase);
    CompletedPhase(s, t);
    RowStep(s, Step(s, Complete(t)), t);
  }

  /** Nobody else has taken the row, so only its size can keep the reply from being stored. */
  lemma CompletedPhase(s: State, t: nat)
    requires Inv(s) && Enabled(s, Complete(t))
    ensures Step(s, Complete(t)).txs[t].phase ==
      if Storable(s.txs[t].phase.reply) then Stored(s.txs[t].phase.reply) else Failing(StoreFailed)
  {
    assert Holds(s.txs[t].phase);
    assert s.pending[s.txs[t].scope] == OwnRow(t, s.txs[t]);
  }

  lemma InsertInv(s: State, t: nat)
    requires Inv(s) && Enabled(s, Insert(t))
    ensures Inv(Step(s, Insert(t)))
  {
    var after := Step(s, Insert(t));
    if s.txs[t].scope in s.table {
      RowlessStep(s, after, t);
    } else {
      assert s.txs[t].scope !in s.pending;
      RowStep(s, after, t);
    }
  }

  lemma LookupInv(s: State, t: nat)
    requires Inv(s) && Enabled(s, Lookup(t))
    ensures Inv(Step(s, Lookup(t)))
  {
    if s.txs[t].scope in s.table { ExaminedInv(s, t); } else { RowlessStep(s, Step(s, Lookup(t)), t); }
  }

  lemma FallbackInv(s: State, t: nat)
    requires Inv(s) && Enabled(s, Fallback(t))
    ensures Inv(Step(s, Fallback(t)))
  {
    if s.txs[t].scope in s.table { ExaminedInv(s, t); } else { RowlessStep(s, Step(s, Fallback(t)), t); }
  }

  lemma WorkInv(s: State, e: Event)
    requires Inv(s) && Enabled(s, e) && e.Work?
    ensures Inv(Step(s, e))
  {
    assert Holds(s.txs[e.t].phase);
    RowStep(s, Step(s, e), e.t);
  }

  lemma StepKeepsInv(s: State, e: Event)
    requires Inv(s) && Enabled(s, e)
    ensures Inv(Step(s, e))
  {
    match e
    case Begin(t, _) => RowlessStep(s, Step(s, e), t);
    case Lookup(t) => LookupInv(s, t);
    case Insert(t) => InsertInv(s, t);
    case InsertError(t) => RowlessStep(s, Step(s, e), t);
    case Fallback(t) => FallbackInv(s, t);
    case Work(_, _, _, _, _) => WorkInv(s, e);
    case Complete(t) => CompleteInv(s, t);
    case Commit(t) => if s.txs[t].phase.Stored? { CommitOwnInv(s, t); } else { CommitReplayInv(s, t); }
    case Abort(t) => AbortInv(s, t);
    case RunCallbacks(t) => RanIsInvisible(s, Step(s, e), t);
  }

  lemma {:induction false} RunKeepsInv(s: State, es: seq<Event>)
    requires Inv(s) && Run(s, es).Some?
    ensures Inv(Run(s, es).value)
    decreases |es|
  {
    if es != [] {
      StepKeepsInv(s, es[0]);
      RunKeepsInv(Step(s, es[0]), es[1..]);
    }
  }

  lemma ReachableInv(s: State)
    requires Reachable(s)
    ensures Inv(s)
  {
    var s0 :| Init(s0) && Reaches(s0, s);
    var es :| Run(s0, es) == Some(s);
    InitInv(s0);
    RunKeepsInv(s0, es);
  }

  // ---------------------------------------------------------------- what holds of every run

  /** The work of one (actor, operation, key) scope commits at most once. */
  lemma AtMostOnce(s: State)
    requires Reachable(s)
    ensures forall i, j :: 0 <= i < j < |s.business| ==> s.business[i].scope != s.business[j].scope
    ensures forall sc :: sc in s.table <==> exists i :: 0 <= i < |s.business| && s.business[i].scope == sc
  {
    ReachableInv(s);
    forall sc ensures sc in s.table <==> exists i :: 0 <= i < |s.business| && s.business[i].scope == sc {
      if sc in s.table { assert WasDone(s, sc); }
      if exists i :: 0 <= i < |s.business| && s.business[i].scope == sc {
        var i :| 0 <= i < |s.business| && s.business[i].scope == sc;
        assert IsDone(s, s.business[i]);
      }
    }
  }

  /** Everyone who is answered for a scope gets the first execution's reply, and asked for the
      same thing: a retry is indistinguishable from the original. */
  lemma RepliesAgree(s: State, t: nat, u: nat)
    requires Reachable(s) && t in s.txs && u in s.txs && s.txs[t].scope == s.txs[u].scope
    requires s.txs[t].phase.Committed? && s.txs[u].phase.Committed?
    ensures s.txs[t].phase.reply == s.txs[u].phase.reply && s.txs[t].requestHash == s.txs[u].requestHash
  {
    ReachableInv(s);
  }

  /** "idempotency_in_progress" and "lost pending ownership" are never reported: a row that a
      transaction can see is completed, and nobody completes another's row. */
  lemma UnreachableRefusals(s: State, t: nat)
    requires Reachable(s) && t in s.txs
    ensures s.txs[t].phase != Refused(InProgress) && s.txs[t].phase != Failing(LostOwnership)
  {
    ReachableInv(s);
  }

  /** They are what would follow if a pending row were found, or a row were not pending and one's own. */
  lemma OddRefusals(s: State, t: nat, record: Record, hash: string)
    ensures record.requestHash == hash && !record.completed ==> Examine(record, hash) == Refused(InProgress)
    ensures Enabled(s, Complete(t)) && |s.txs[t].phase.reply.body| <= 65535 ==>
      var sc := s.txs[t].scope;
      Step(s, Complete(t)).txs[t].phase ==
        if sc in s.pending && s.pending[sc].owner == t && !s.pending[sc].record.completed
        then Stored(s.txs[t].phase.reply) else Failing(LostOwnership)
  {
  }

  lemma TableGrows(s: State, e: Event)
    requires Inv(s) && Enabled(s, e)
    ensures forall sc :: sc in s.table ==> sc in Step(s, e).table && Step(s, e).table[sc] == s.table[sc]
    ensures s.business <= Step(s, e).business
  {
    if e.Commit? && s.txs[e.t].phase.Stored? {
      CommittedTable(s, e.t);
      assert Step(s, e).business == s.business + [Done(e.t, s.txs[e.t].scope, s.txs[e.t].effects)];
    } else {
      TableSame(s, e);
    }
  }

  lemma TableSame(s: State, e: Event)
    requires Enabled(s, e) && !(e.Commit? && s.txs[e.t].phase.Stored?)
    ensures Step(s, e).table == s.table && Step(s, e).business == s.business
  {
  }

  /** A committed record is completed and never changes; committed work is never undone. */
  lemma {:induction false} RecordsArePermanent(s: State, es: seq<Event>)
    requires Inv(s) && Run(s, es).Some?
    ensures var after := Run(s, es).value;
            && (forall sc :: sc in s.table ==>
                  s.table[sc].completed && sc in after.table && after.table[sc] == s.table[sc])
            && s.business <= after.business
    decreases |es|
  {
    if es != [] {
      StepKeepsInv(s, es[0]);
      TableGrows(s, es[0]);
      RecordsArePermanent(Step(s, es[0]), es[1..]);
    }
  }

  /** While a scope has a record, nobody is in a position to work on it. */
  lemma NobodyWorks(s: State, e: Event, sc: Scope)
    requires Inv(s) && sc in s.table && Enabled(s, e) && e.Work?
    ensures s.txs[e.t].scope != sc
  {
    assert Holds(s.txs[e.t].phase);
  }

  lemma RunPrefix(s: State, es: seq<Event>, i: nat)
    requires 0 < i <= |es| && Enabled(s, es[0])
    ensures Run(s, es[..i]) == Run(Step(s, es[0]), es[1..][..i - 1])
  {
    assert es[..i][0] == es[0] && es[..i][1..] == es[1..][..i - 1];
  }

  /** Once a scope has a record, no later event runs work for it: neither a retry nor a reuse of
      the key for a different request. */
  lemma {:induction false} NoWorkAfterCommit(s: State, es: seq<Event>, sc: Scope, i: nat)
    requires Inv(s) && sc in s.table && Run(s, es).Some? && i < |es| && es[i].Work?
    ensures Run(s, es[..i]).Some? && WorksElsewhere(Run(s, es[..i]).value, es[i], sc)
    decreases |es|
  {
    if i == 0 {
      assert es[..0] == [];
      NobodyWorks(s, es[0], sc);
    } else {
      StepKeepsInv(s, es[0]);
      TableGrows(s, es[0]);
      assert es[1..][i - 1] == es[i];
      NoWorkAfterCommit(Step(s, es[0]), es[1..], sc, i - 1);
      RunPrefix(s, es, i);
    }
  }

  ghost predicate WorksElsewhere(s: State, e: Event, sc: Scope) { e.t in s.txs && s.txs[e.t].scope != sc }

  /** A transaction for a different request than the recorded one is refused, whenever it looks. */
  lemma DifferentRequestIsRefused(s: State, t: nat)
    requires Inv(s) && Enabled(s, Lookup(t)) && s.txs[t].scope in s.table
    ensures Step(s, Lookup(t)).txs[t].phase ==
            if s.table[s.txs[t].scope].requestHash == s.txs[t].requestHash
            then Replaying(s.table[s.txs[t].scope].reply) else Refused(KeyReused)
  {
  }

  lemma AbortedIsInert(s: State, t: nat, e: Event)
    requires t in s.txs && s.txs[t].phase.Aborted? && Enabled(s, e)
    ensures e.t != t && t in Step(s, e).txs && Step(s, e).txs[t] == s.txs[t]
  {
    assert e.t != t;
  }

  /** A rolled-back transaction takes no further step: it never commits or runs a callback later. */
  lemma {:induction false} AbortedForGood(s: State, t: nat, es: seq<Event>)
    requires t in s.txs && s.txs[t].phase.Aborted? && Run(s, es).Some?
    ensures var after := Run(s, es).value; t in after.txs && after.txs[t] == s.txs[t]
    ensures forall i :: 0 <= i < |es| ==> es[i].t != t
    decreases |es|
  {
    if es != [] {
      AbortedIsInert(s, t, es[0]);
      AbortedForGood(Step(s, es[0]), t, es[1..]);
      forall i | 0 <= i < |es| ensures es[i].t != t {
        if i > 0 { assert es[i] == es[1..][i - 1]; }
      }
    }
  }

  lemma AbortChangesNothingCommitted(s: State, t: nat)
    requires Inv(s) && Enabled(s, Abort(t))
    ensures var after := Step(s, Abort(t));
            && after.table == s.table && after.business == s.business && after.sideEffects == s.sideEffects
            && after.txs[t].phase.Aborted?
            && (Holds(s.txs[t].phase) ==> s.txs[t].scope !in after.pending)
            && (forall sc :: sc in after.locks ==> after.locks[sc] != t)
  {
  }

  /** The transaction function returned an error. */
  predicate Doomed(p: Phase) { p.Failing? || p.Refused? || p.Aborted? }

  lemma OthersUntouched(s: State, t: nat, e: Event)
    requires t in s.txs && Enabled(s, e) && e.t != t
    ensures t in Step(s, e).txs && Step(s, e).txs[t] == s.txs[t]
  {
    if !e.RunCallbacks? { StepFrame(s, e); }
  }

  lemma DoomedStep(s: State, t: nat, e: Event)
    requires t in s.txs && Doomed(s.txs[t].phase) && Enabled(s, e)
    ensures t in Step(s, e).txs && Doomed(Step(s, e).txs[t].phase) && Step(s, e).txs[t].ran == s.txs[t].ran
    ensures e.t == t ==> e == Abort(t)
  {
    if e.t != t { OthersUntouched(s, t, e); }
  }

  /** Work that fails, or whose result is refused, ends by rollback or not at all: in no continuation
      does its transaction commit or run a callback. */
  lemma {:induction false} DoomedNeverCommits(s: State, t: nat, es: seq<Event>)
    requires t in s.txs && Doomed(s.txs[t].phase) && Run(s, es).Some?
    ensures var after := Run(s, es).value;
      t in after.txs && Doomed(after.txs[t].phase) && after.txs[t].ran == s.txs[t].ran
    ensures forall i :: 0 <= i < |es| && es[i].t == t ==> es[i] == Abort(t)
    decreases |es|
  {
    if es != [] {
      DoomedStep(s, t, es[0]);
      DoomedNeverCommits(Step(s, es[0]), t, es[1..]);
      forall i | 0 <= i < |es| && es[i].t == t ensures es[i] == Abort(t) {
        if i > 0 { assert es[i] == es[1..][i - 1]; }
      }
    }
  }

  /** Work whose result was accepted keeps its reply until the transaction ends, and gets past storing
      it only if it can be stored. */
  ghost predicate KeepsReply(p: Phase, reply: Reply) {
    || p == Worked(reply) || Doomed(p)
    || (Storable(reply) && (p == Stored(reply) || p == Committed(reply, false)))
  }

  lemma KeepsReplyStep(s: State, t: nat, e: Event, reply: Reply)
    requires t in s.txs && KeepsReply(s.txs[t].phase, reply) && Enabled(s, e)
    ensures t in Step(s, e).txs && KeepsReply(Step(s, e).txs[t].phase, reply)
  {
    if e.t != t { OthersUntouched(s, t, e); }
  }

  lemma {:induction false} KeepsReplyRun(s: State, t: nat, es: seq<Event>, reply: Reply)
    requires t in s.txs && KeepsReply(s.txs[t].phase, reply) && Run(s, es).Some?
    ensures t in Run(s, es).value.txs && KeepsReply(Run(s, es).value.txs[t].phase, reply)
    decreases |es|
  {
    if es != [] {
      KeepsReplyStep(s, t, es[0], reply);
      KeepsReplyRun(Step(s, es[0]), t, es[1..], reply);
    }
  }

  /** The reply a transaction commits with is that of its work, and fits its column. */
  lemma WorkedIsKept(s: State, t: nat, es: seq<Event>)
    requires t in s.txs && s.txs[t].phase.Worked? && Run(s, es).Some?
    ensures t in Run(s, es).value.txs
    ensures Run(s, es).value.txs[t].phase.Committed? ==>
      Run(s, es).value.txs[t].phase.reply == s.txs[t].phase.reply && Storable(s.txs[t].phase.reply)
  {
    KeepsReplyRun(s, t, es, s.txs[t].phase.reply);
  }

  /** Some continuation commits the transaction. */
  ghost predicate CanCommit(s: State, t: nat) {
    exists es :: Run(s, es).Some? && t in Run(s, es).value.txs && Run(s, es).value.txs[t].phase.Committed?
  }

  /** Work that returned a storable reply can be completed and committed. */
  lemma StorableCommits(s: State, t: nat)
    requires Inv(s) && t in s.txs && s.txs[t].phase.Worked? && Storable(s.txs[t].phase.reply)
    ensures CanCommit(s, t)
  {
    var e0, e1 := Complete(t), Commit(t);
    CompletedPhase(s, t);
    StoredCommits(Step(s, e0), t);
    RunTwo(s, e0, e1);
  }

  lemma StoredCommits(s: State, t: nat)
    requires t in s.txs && s.txs[t].phase.Stored?
    ensures Enabled(s, Commit(t)) && t in Step(s, Commit(t)).txs && Step(s, Commit(t)).txs[t].phase.Committed?
  {
  }

  lemma RunTwo(s: State, e0: Event, e1: Event)
    requires Enabled(s, e0) && Enabled(Step(s, e0), e1)
    ensures Run(s, [e0, e1]) == Some(Step(Step(s, e0), e1))
  {
    var s1 := Step(s, e0);
    assert [e0, e1][1..] == [e1] && [e1][1..] == [];
    assert Run(Step(s1, e1), []) == Some(Step(s1, e1));
    assert Run(s1, [e1]) == Run(Step(s1, e1), [e1][1..]);
  }

  /** A result is accepted exactly with a status from 200 to 599 and at most 65536 bytes; it is then as the
      work returned it, with the cloned headers. */
  lemma AcceptedIff(outcome: Outcome, stored: Headers)
    ensures Judge(outcome, stored).Worked? <==>
      outcome.Returned? && 200 <= outcome.reply.status < 600 && |outcome.reply.body| <= 65536
    ensures Judge(outcome, stored).Worked? ==>
      var r := outcome.reply;
      Judge(outcome, stored).reply == Reply(r.status, r.body, stored, r.resourceType, r.resourceId)
  {
  }

  /** After work in a reachable state the transaction can commit if and only if the result was accepted
      and can be stored. */
  lemma WorkCommitsIff(s: State, t: nat)
    requires Inv(s) && t in s.txs && (s.txs[t].phase.Worked? || s.txs[t].phase.Failing?)
    ensures CanCommit(s, t) <==> s.txs[t].phase.Worked? && Storable(s.txs[t].phase.reply)
  {
    if CanCommit(s, t) {
      var es :| Run(s, es).Some? && t in Run(s, es).value.txs && Run(s, es).value.txs[t].phase.Committed?;
      if s.txs[t].phase.Worked? { WorkedIsKept(s, t, es); } else { DoomedNeverCommits(s, t, es); }
    }
    if s.txs[t].phase.Worked? && Storable(s.txs[t].phase.reply) { StorableCommits(s, t); }
  }

  lemma {:induction false} RunConcat(s: State, es: seq<Event>, more: seq<Event>)
    requires Run(s, es).Some?
    ensures Run(s, es + more) == Run(Run(s, es).value, more)
    decreases |es|
  {
    if es == [] {
      assert es + more == more;
    } else {
      assert (es + more)[0] == es[0] && (es + more)[1..] == es[1..] + more;
      RunConcat(Step(s, es[0]), es[1..], more);
    }
  }

  lemma ReachableRun(s: State, es: seq<Event>)
    requires Reachable(s) && Run(s, es).Some?
    ensures Reachable(Run(s, es).value)
  {
    var s0 :| Init(s0) && Reaches(s0, s);
    var before :| Run(s0, before) == Some(s);
    RunConcat(s0, before, es);
    assert Reaches(s0, Run(s, es).value);
  }

  lemma ReachableStep(s: State, e: Event)
    requires Reachable(s) && Enabled(s, e)
    ensures Reachable(Step(s, e))
  {
    assert [e][1..] == [] && Run(Step(s, e), []) == Some(Step(s, e));
    assert Run(s, [e]) == Run(Step(s, e), [e][1..]);
    ReachableRun(s, [e]);
  }

  // ---------------------------------------------------------------- the key is free again

  /** Only committed rows are locked for update. */
  ghost predicate LocksOnRows(s: State) { forall sc :: sc in s.locks ==> sc in s.table }

  lemma StepKeepsLocks(s: State, e: Event)
    requires Inv(s) && LocksOnRows(s) && Enabled(s, e)
    ensures LocksOnRows(Step(s, e))
  {
    TableGrows(s, e);
    LocksOfStep(s, e);
  }

  /** A step takes at most one lock, on a row it found, and keeps or gives up others. */
  lemma LocksOfStep(s: State, e: Event)
    requires Enabled(s, e)
    ensures forall sc :: sc in Step(s, e).locks ==> sc in s.locks || sc in s.table
  {
  }

  lemma {:induction false} RunKeepsLocks(s: State, es: seq<Event>)
    requires Inv(s) && LocksOnRows(s) && Run(s, es).Some?
    ensures LocksOnRows(Run(s, es).value)
    decreases |es|
  {
    if es != [] {
      StepKeepsInv(s, es[0]);
      StepKeepsLocks(s, es[0]);
      RunKeepsLocks(Step(s, es[0]), es[1..]);
    }
  }

  lemma ReachableLocks(s: State)
    requires Reachable(s)
    ensures LocksOnRows(s)
  {
    var s0 :| Init(s0) && Reaches(s0, s);
    var es :| Run(s0, es) == Some(s);
    InitInv(s0);
    RunKeepsLocks(s0, es);
  }

  /** After a rollback the key can be used again: in every reachable state, a new transaction with it
      gets as far as doing work. */
  lemma KeyUsableAfterAbort(s: State, t: nat, u: nat, r: Request)
    requires Reachable(s) && Enabled(s, Abort(t)) && Holds(s.txs[t].phase) && ScopeOf(r) == s.txs[t].scope
    requires u !in s.txs && ValidateRequest(r).None?
    ensures var after := Run(Step(s, Abort(t)), [Begin(u, r), Lookup(u), Insert(u)]);
            after.Some? && u in after.value.txs && after.value.txs[u].phase.Reserved?
  {
    ReachableInv(s);
    ReachableLocks(s);
    var s0 := Step(s, Abort(t));
    assert ScopeOf(r) in s.pending && ScopeOf(r) !in s.table && ScopeOf(r) !in s.locks;
    var e0, e1, e2 := Begin(u, r), Lookup(u), Insert(u);
    var s1 := Step(s0, e0);
    assert Unblocked(s1, u, ScopeOf(r));
    var s2 := Step(s1, e1);
    var s3 := Step(s2, e2);
    RunThree(s0, e0, e1, e2);
  }

  lemma RunThree(s: State, e0: Event, e1: Event, e2: Event)
    requires Enabled(s, e0) && Enabled(Step(s, e0), e1) && Enabled(Step(Step(s, e0), e1), e2)
    ensures Run(s, [e0, e1, e2]) == Some(Step(Step(Step(s, e0), e1), e2))
  {
    assert [e0, e1, e2][1..] == [e1, e2] && [e1, e2][1..] == [e2] && [e2][1..] == [];
    assert Run(Step(Step(Step(s, e0), e1), e2), []) == Some(Step(Step(Step(s, e0), e1), e2));
    assert Run(Step(Step(s, e0), e1), [e2]) == Some(Step(Step(Step(s, e0), e1), e2));
    assert Run(Step(s, e0), [e1, e2]) == Run(Step(Step(s, e0), e1), [e2]);
  }

  // ---------------------------------------------------------------- callbacks

  function CallbacksOf(log: seq<(nat, Callback)>, t: nat): seq<Callback> {
    if log == [] then []
    else CallbacksOf(log[..|log| - 1], t) + (if log[|log| - 1].0 == t then [log[|log| - 1].1] else [])
  }

  /** Callbacks run only for committed transactions, all of them, once, in registration order. */
  ghost predicate CallbacksFaithful(s: State) {
    forall t :: CallbacksOf(s.sideEffects, t) ==
      if t in s.txs && s.txs[t].ran then s.txs[t].callbacks else []
  }

  ghost predicate RanOnlyCommitted(s: State) {
    forall t :: t in s.txs && s.txs[t].ran ==> s.txs[t].phase.Committed?
  }

  /** A transaction that has not worked has registered nothing. */
  ghost predicate Idle(p: Phase) {
    p.Begun? || p.Missing? || p.Duplicate? || p.Reserved? || p.Replaying? || p.Refused? || (p.Committed? && p.replayed)
  }

  ghost predicate IdleHasNone(s: State) {
    forall t :: t in s.txs && Idle(s.txs[t].phase) ==> s.txs[t].callbacks == [] && s.txs[t].effects == []
  }

  ghost predicate CallbackInv(s: State) { CallbacksFaithful(s) && RanOnlyCommitted(s) && IdleHasNone(s) }

  lemma {:induction false} CallbacksOfAppend(log: seq<(nat, Callback)>, t: nat, cs: seq<Callback>, u: nat)
    ensures CallbacksOf(log + Tagged(t, cs), u) == CallbacksOf(log, u) + (if u == t then cs else [])
    decreases |cs|
  {
    if cs == [] {
      assert log + Tagged(t, cs) == log;
    } else {
      var front, last := cs[..|cs| - 1], cs[|cs| - 1];
      var all := log + Tagged(t, cs);
      assert all[..|all| - 1] == log + Tagged(t, front);
      assert all[|all| - 1] == (t, last);
      CallbacksOfAppend(log, t, front, u);
      assert cs == front + [last];
    }
  }

  /** What a step other than running callbacks does to the transaction it belongs to. */
  lemma StepFrame(s: State, e: Event)
    requires Enabled(s, e) && !e.RunCallbacks?
    ensures var after := Step(s, e);
            && after.sideEffects == s.sideEffects && e.t in after.txs && after.txs == s.txs[e.t := after.txs[e.t]]
            && after.txs[e.t].ran == (e.t in s.txs && s.txs[e.t].ran)
            && (e.t in s.txs ==> !s.txs[e.t].phase.Committed?)
  {
  }

  lemma StepKeepsIdle(s: State, e: Event)
    requires Enabled(s, e) && IdleHasNone(s)
    ensures IdleHasNone(Step(s, e))
  {
    if !e.RunCallbacks? {
      StepFrame(s, e);
      IdleOne(s, e);
    }
  }

  /** A transaction that is idle after the step was idle before and registered nothing in it. */
  ghost predicate StaysIdle(s: State, after: State, t: nat, begins: bool) {
    t in after.txs && (Idle(after.txs[t].phase) ==>
      var tx := after.txs[t];
      if begins then tx.callbacks == [] && tx.effects == []
      else t in s.txs && Idle(s.txs[t].phase)
           && tx.callbacks == s.txs[t].callbacks && tx.effects == s.txs[t].effects)
  }

  lemma IdleOne(s: State, e: Event)
    requires Enabled(s, e) && !e.RunCallbacks?
    ensures StaysIdle(s, Step(s, e), e.t, e.Begin?)
  {
    if e.Begin? || e.Work? || e.Complete? || e.Commit? || e.Abort? { IdleAtWork(s, e); } else { IdleReserving(s, e); }
  }

  lemma IdleReserving(s: State, e: Event)
    requires Enabled(s, e) && (e.Lookup? || e.Insert? || e.InsertError? || e.Fallback?)
    ensures StaysIdle(s, Step(s, e), e.t, false)
  {
  }

  lemma IdleAtWork(s: State, e: Event)
    requires Enabled(s, e) && (e.Begin? || e.Work? || e.Complete? || e.Commit? || e.Abort?)
    ensures StaysIdle(s, Step(s, e), e.t, e.Begin?)
  {
  }

  /** A transaction that had not committed, and so had not run its callbacks, may be replaced. */
  lemma FrameKeepsFaithful(s: State, after: State, t: nat)
    requires CallbacksFaithful(s) && RanOnlyCommitted(s) && (t in s.txs ==> !s.txs[t].phase.Committed?)
    requires after.sideEffects == s.sideEffects && t in after.txs && after.txs == s.txs[t := after.txs[t]]
    requires after.txs[t].ran == (t in s.txs && s.txs[t].ran)
    ensures CallbacksFaithful(after) && RanOnlyCommitted(after)
  {
  }

  lemma StepKeepsCallbacks(s: State, e: Event)
    requires Enabled(s, e) && CallbackInv(s)
    ensures CallbackInv(Step(s, e))
  {
    StepKeepsIdle(s, e);
    if e.RunCallbacks? {
      RunKeepsFaithful(s, e.t);
    } else {
      StepFrame(s, e);
      FrameKeepsFaithful(s, Step(s, e), e.t);
    }
  }

  lemma RunKeepsFaithful(s: State, t: nat)
    requires Enabled(s, RunCallbacks(t)) && CallbackInv(s)
    ensures CallbacksFaithful(Step(s, RunCallbacks(t))) && RanOnlyCommitted(Step(s, RunCallbacks(t)))
  {
    var after := Step(s, RunCallbacks(t));
    forall u
      ensures CallbacksOf(after.sideEffects, u)
           == if u in after.txs && after.txs[u].ran then after.txs[u].callbacks else []
    {
      CallbacksOfAppend(s.sideEffects, t, s.txs[t].callbacks, u);
    }
  }

  lemma {:induction false} RunKeepsCallbacks(s: State, es: seq<Event>)
    requires CallbackInv(s) && Run(s, es).Some?
    ensures CallbackInv(Run(s, es).value)
    decreases |es|
  {
    if es != [] {
      StepKeepsCallbacks(s, es[0]);
      RunKeepsCallbacks(Step(s, es[0]), es[1..]);
    }
  }

  /** In every run: the callbacks that have run for a transaction are none unless it committed its
      own work and the runner was invoked, and then exactly the registered ones, in order. */
  lemma CallbacksOnceInOrder(s: State, t: nat)
    requires Reachable(s)
    ensures CallbacksOf(s.sideEffects, t) == [] ||
            (t in s.txs && s.txs[t].phase.Committed? && !s.txs[t].phase.replayed
             && CallbacksOf(s.sideEffects, t) == s.txs[t].callbacks)
    ensures t in s.txs && s.txs[t].ran ==> CallbacksOf(s.sideEffects, t) == s.txs[t].callbacks
  {
    var s0 :| Init(s0) && Reaches(s0, s);
    var es :| Run(s0, es) == Some(s);
    RunKeepsCallbacks(s0, es);
  }
}
