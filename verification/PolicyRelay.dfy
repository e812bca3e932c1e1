/** The outbox of policy changes and the relay loops of any number of service instances that
    publish it, as an interleaving of their single database statements on one clock. */
module PolicyRelay {
  import opened Options
  import opened Rbac
  import opened RbacSafety

  const LEASE: nat := 30
  const BATCH: nat := 100

  /** A row of `permission_policy_outbox`; its identifier is its position. */
  datatype Row = Row(version: string, attempts: nat, dispatchedAt: Option<nat>, lockedAt: Option<nat>, lockedBy: string)

  function NewRow(version: string): Row { Row(version, 0, None, None, "") }

  /** The condition of both the listing and the claim. */
  predicate Eligible(row: Row, leaseBefore: int) {
    row.dispatchedAt.None? && (row.lockedAt.None? || row.lockedAt.value < leaseBefore)
  }

  /** The condition of both the completion and the release. */
  predicate Held(row: Row, instance: string) { row.dispatchedAt.None? && row.lockedBy == instance }

  function Claimed(row: Row, instance: string, stamp: nat): Row { row.(lockedAt := Some(stamp), lockedBy := instance) }
  function Released(row: Row): Row { row.(attempts := row.attempts + 1, lockedAt := None, lockedBy := "") }
  function Completed(row: Row, stamp: nat): Row { Released(row).(dispatchedAt := Some(stamp)) }

  /** Identifiers of the eligible rows below `n`, in order. */
  function EligibleBelow(rows: seq<Row>, leaseBefore: int, n: nat): seq<nat>
    requires n <= |rows|
  {
    if n == 0 then []
    else EligibleBelow(rows, leaseBefore, n - 1) + (if Eligible(rows[n - 1], leaseBefore) then [n - 1] else [])
  }

  /** The first hundred eligible rows. */
  function Listing(rows: seq<Row>, leaseBefore: int): seq<nat> {
    var ids := EligibleBelow(rows, leaseBefore, |rows|);
    if |ids| > BATCH then ids[..BATCH] else ids
  }

  ghost predicate Ascending(ids: seq<nat>, bound: nat) {
    (forall i :: 0 <= i < |ids| ==> ids[i] < bound) && forall i, j :: 0 <= i < j < |ids| ==> ids[i] < ids[j]
  }

  lemma {:induction false} EligibleBelowCorrect(rows: seq<Row>, leaseBefore: int, n: nat)
    requires n <= |rows|
    ensures Ascending(EligibleBelow(rows, leaseBefore, n), n)
    ensures forall id :: id in EligibleBelow(rows, leaseBefore, n) <==> 0 <= id < n && Eligible(rows[id], leaseBefore)
  {
    if n > 0 { EligibleBelowCorrect(rows, leaseBefore, n - 1); }
  }

  /** The listing is ascending and holds only eligible rows. */
  lemma ListingIsEligible(rows: seq<Row>, leaseBefore: int)
    ensures var ids := Listing(rows, leaseBefore);
      Ascending(ids, |rows|) && |ids| <= BATCH && forall k :: 0 <= k < |ids| ==> Eligible(rows[ids[k]], leaseBefore)
  {
    var all, ids := EligibleBelow(rows, leaseBefore, |rows|), Listing(rows, leaseBefore);
    EligibleBelowCorrect(rows, leaseBefore, |rows|);
    forall k | 0 <= k < |ids| ensures ids[k] < |rows| && Eligible(rows[ids[k]], leaseBefore) {
      assert ids[k] == all[k] && all[k] in all;
    }
  }

  /** An eligible row is missing from the listing only if the batch is full of rows before it. */
  lemma ListingMissesOnlyLater(rows: seq<Row>, leaseBefore: int, id: nat)
    requires id < |rows| && Eligible(rows[id], leaseBefore) && id !in Listing(rows, leaseBefore)
    ensures |Listing(rows, leaseBefore)| == BATCH
    ensures forall k :: 0 <= k < |Listing(rows, leaseBefore)| ==> Listing(rows, leaseBefore)[k] < id
  {
    var all, ids := EligibleBelow(rows, leaseBefore, |rows|), Listing(rows, leaseBefore);
    EligibleBelowCorrect(rows, leaseBefore, |rows|);
    assert id in all;
    var j :| 0 <= j < |all| && all[j] == id;
    assert forall k :: 0 <= k < |ids| ==> ids[k] == all[k];
  }

  // ---------------------------------------------------------------- which rows are relayed

  /** A change that waits for an instance to relay it: nobody has dispatched it, and nobody has claimed
      it since the bound. */
  ghost predicate Waiting(row: Row, bound: int) {
    row.dispatchedAt == None && (row.lockedAt.Some? ==> row.lockedAt.value < bound)
  }

  /** How many of the first `n` rows wait. */
  ghost function WaitingBelow(rows: seq<Row>, bound: int, n: nat): nat
    requires n <= |rows|
  {
    if n == 0 then 0 else WaitingBelow(rows, bound, n - 1) + if Waiting(rows[n - 1], bound) then 1 else 0
  }

  lemma {:induction false} WaitingAt(rows: seq<Row>, bound: int, n: nat, id: nat)
    requires id < n <= |rows| && Waiting(rows[id], bound)
    ensures |EligibleBelow(rows, bound, n)| == WaitingBelow(rows, bound, n) > WaitingBelow(rows, bound, id)
    ensures EligibleBelow(rows, bound, n)[WaitingBelow(rows, bound, id)] == id
  {
    EligibleCount(rows, bound, n);
    EligibleCount(rows, bound, n - 1);
    if id < n - 1 { WaitingAt(rows, bound, n - 1, id); }
  }

  lemma {:induction false} EligibleCount(rows: seq<Row>, bound: int, n: nat)
    requires n <= |rows|
    ensures |EligibleBelow(rows, bound, n)| == WaitingBelow(rows, bound, n)
  {
    if n > 0 { EligibleCount(rows, bound, n - 1); }
  }

  /** A row is listed exactly when it waits and fewer than a hundred rows before it do. */
  lemma ListedIff(rows: seq<Row>, bound: int, id: nat)
    ensures id in Listing(rows, bound) <==>
      id < |rows| && Waiting(rows[id], bound) && WaitingBelow(rows, bound, id) < 100
  {
    var all, ids := EligibleBelow(rows, bound, |rows|), Listing(rows, bound);
    ListingIsEligible(rows, bound);
    assert forall k :: 0 <= k < |ids| ==> ids[k] == all[k];
    if id < |rows| && Waiting(rows[id], bound) {
      var n := WaitingBelow(rows, bound, id);
      WaitingAt(rows, bound, |rows|, id);
      EligibleBelowCorrect(rows, bound, |rows|);
      assert n < 100 ==> ids[n] == id;
    }
  }

  // ---------------------------------------------------------------- one uninterrupted pass

  /** The rows after the first `n` listed ones have been dispatched; `clock` gives the reading taken
      before each claim. */
  function Dispatched(rows: seq<Row>, ids: seq<nat>, n: nat, clock: nat -> nat): (r: seq<Row>)
    requires n <= |ids| && forall k :: 0 <= k < |ids| ==> ids[k] < |rows|
    ensures |r| == |rows|
  {
    if n == 0 then rows
    else var before := Dispatched(rows, ids, n - 1, clock);
         before[ids[n - 1] := Completed(before[ids[n - 1]], clock(n - 1))]
  }

  /** Rows that are not among those are untouched ... */
  lemma {:induction false} UntouchedRows(rows: seq<Row>, ids: seq<nat>, n: nat, clock: nat -> nat, id: nat)
    requires n <= |ids| && Ascending(ids, |rows|) && id < |rows| && id !in ids[..n]
    ensures Dispatched(rows, ids, n, clock)[id] == rows[id]
  {
    if n > 0 {
      assert ids[..n] == ids[..n - 1] + [ids[n - 1]];
      UntouchedRows(rows, ids, n - 1, clock, id);
    }
  }

  /** ... and those are marked once, each with its own reading. */
  lemma {:induction false} DispatchedRows(rows: seq<Row>, ids: seq<nat>, n: nat, clock: nat -> nat, k: nat)
    requires k < n <= |ids| && Ascending(ids, |rows|)
    ensures Dispatched(rows, ids, n, clock)[ids[k]] == Completed(rows[ids[k]], clock(k))
  {
    if k == n - 1 {
      NotYet(ids, |rows|, k);
      UntouchedRows(rows, ids, k, clock, ids[k]);
    } else {
      DispatchedRows(rows, ids, n - 1, clock, k);
    }
  }

  /** A row that has been relayed: dispatched, free, and with one more attempt. */
  ghost predicate Relayed(before: Row, after: Row) {
    && after.version == before.version && after.dispatchedAt.Some? && after.attempts == before.attempts + 1
    && after.lockedAt == None && after.lockedBy == ""
  }

  /** A pass that dispatches all it lists has relayed the first hundred waiting rows. */
  lemma PassRelays(rows: seq<Row>, bound: int, clock: nat -> nat, id: nat)
    requires id < |rows| && Ascending(Listing(rows, bound), |rows|)
    ensures var ids := Listing(rows, bound);
            var after := Dispatched(rows, ids, |ids|, clock);
      if Waiting(rows[id], bound) && WaitingBelow(rows, bound, id) < 100 then Relayed(rows[id], after[id])
      else after[id] == rows[id]
  {
    var ids := Listing(rows, bound);
    ListedIff(rows, bound, id);
    if id in ids {
      var k :| 0 <= k < |ids| && ids[k] == id;
      DispatchedRows(rows, ids, |ids|, clock, k);
    } else {
      assert ids[..|ids|] == ids;
      UntouchedRows(rows, ids, |ids|, clock, id);
    }
  }

  /** Of the waiting rows the first hundred have been relayed; all others are as they were. */
  ghost predicate RelayedFirst(before: seq<Row>, after: seq<Row>, bound: int) {
    |after| == |before| && forall id :: 0 <= id < |before| ==>
      if Waiting(before[id], bound) && WaitingBelow(before, bound, id) < 100 then Relayed(before[id], after[id])
      else after[id] == before[id]
  }

  lemma PassRelaysFirst(rows: seq<Row>, bound: int, clock: nat -> nat)
    requires Ascending(Listing(rows, bound), |rows|)
    ensures RelayedFirst(rows, Dispatched(rows, Listing(rows, bound), |Listing(rows, bound)|, clock), bound)
  {
    var after := Dispatched(rows, Listing(rows, bound), |Listing(rows, bound)|, clock);
    forall id | 0 <= id < |rows|
      ensures if Waiting(rows[id], bound) && WaitingBelow(rows, bound, id) < 100 then Relayed(rows[id], after[id])
              else after[id] == rows[id]
    {
      PassRelays(rows, bound, clock, id);
    }
  }

  class Outbox {
    var rows: seq<Row>
    var pending: nat
    var published: nat

    constructor ()
      ensures rows == [] && pending == 0 && published == 0
    {
      rows, pending, published := [], 0, 0;
    }

    method List(leaseBefore: int) returns (ids: seq<nat>)
      ensures ids == Listing(rows, leaseBefore)
    {
      ids := [];
      for id := 0 to |rows|
        invariant ids == EligibleBelow(rows, leaseBefore, id)
      {
        if Eligible(rows[id], leaseBefore) {
          ids := ids + [id];
        }
      }
      if |ids| > BATCH {
        ids := ids[..BATCH];
      }
    }

    /** Claim, publish, and complete or release one row. */
    method RelayRow(id: nat, instance: string, now: nat, publish: string -> bool) returns (ok: bool)
      requires id < |rows|
      modifies this`rows, this`published
      ensures ok == publish(old(rows)[id].version)
      ensures rows == old(rows)[id := if ok then Completed(old(rows)[id], now) else Released(old(rows)[id])]
      ensures published == old(published) + if ok then 1 else 0
    {
      rows := rows[id := Claimed(rows[id], instance, now)];
      ok := publish(rows[id].version);
      if ok {
        rows := rows[id := Completed(rows[id], now)];
        published := published + 1;
      } else {
        rows := rows[id := Released(rows[id])];
      }
    }

    /** One pass of the relay with no other instance at work, listed at one reading of the clock and
        claiming each row at another: the listed rows are published in order
        up to the first failure; those are dispatched, the failed one is released. */
    method RelayPass(instance: string, listed: nat, clock: nat -> nat, publish: string -> bool)
      returns (ok: bool, done: nat, ids: seq<nat>)
      modifies this
      ensures ids == Listing(old(rows), listed - LEASE) && Ascending(ids, |old(rows)|) && pending == |ids|
      ensures done <= |ids| && (ok <==> done == |ids|) && published == old(published) + done
      ensures forall k :: 0 <= k < done ==> publish(old(rows)[ids[k]].version)
      ensures ok ==> rows == Dispatched(old(rows), ids, done, clock)
      ensures !ok ==> !publish(old(rows)[ids[done]].version)
      ensures !ok ==> rows == Dispatched(old(rows), ids, done, clock)[ids[done] := Released(old(rows)[ids[done]])]
      ensures (forall version :: publish(version)) ==> ok
      ensures ok ==> RelayedFirst(old(rows), rows, listed - 30)
    {
      ids := List(listed - LEASE);
      ListingIsEligible(rows, listed - LEASE);
      pending := |ids|;
      done := 0;
      while done < |ids|
        invariant done <= |ids| && pending == |ids| && published == old(published) + done
        invariant forall k :: 0 <= k < done ==> publish(old(rows)[ids[k]].version)
        invariant rows == Dispatched(old(rows), ids, done, clock)
      {
        NotYet(ids, |old(rows)|, done);
        UntouchedRows(old(rows), ids, done, clock, ids[done]);
        ok := RelayRow(ids[done], instance, clock(done), publish);
        if !ok {
          return;
        }
        done := done + 1;
      }
      ok := true;
      PassRelaysFirst(old(rows), listed - LEASE, clock);
    }
  }

  lemma NotYet(ids: seq<nat>, bound: nat, n: nat)
    requires Ascending(ids, bound) && n < |ids|
    ensures ids[n] !in ids[..n]
  {
  }

  // ---------------------------------------------------------------- many instances

  /** Where the relay loop of an instance stands. */
  datatype Phase =
    | Idle
    | Working(leaseBefore: int, todo: seq<nat>)
    | Claiming(leaseBefore: int, id: nat, stamp: nat, todo: seq<nat>)
    | Publishing(leaseBefore: int, id: nat, stamp: nat, todo: seq<nat>)
    | Completing(leaseBefore: int, id: nat, stamp: nat, todo: seq<nat>)
    | Releasing(id: nat, stamp: nat)

  datatype Relay = Relay(db: Db, now: nat, rows: seq<Row>, published: set<string>, loops: map<string, Phase>)

  datatype Step =
    | Commit(c: Config, op: Op, version: string)
    | Tick(seconds: nat)
    | Start(i: string)
    | List(i: string)
    | Next(i: string)
    | Claim(i: string)
    | PublishOk(i: string)
    | PublishFails(i: string, arrived: bool)
    | Complete(i: string)
    | Release(i: string)
    | Stop(i: string)

  predicate Enabled(s: Relay, step: Step) {
    match step
    case Commit(_, _, _) => true
    case Tick(_) => true
    case Start(i) => i != "" && i !in s.loops
    case List(i) => i in s.loops && s.loops[i].Idle?
    case Next(i) => i in s.loops && s.loops[i].Working? && s.loops[i].todo != []
    case Claim(i) => i in s.loops && s.loops[i].Claiming? && s.loops[i].id < |s.rows|
    case PublishOk(i) => i in s.loops && s.loops[i].Publishing? && s.loops[i].id < |s.rows|
    case PublishFails(i, _) => i in s.loops && s.loops[i].Publishing? && s.loops[i].id < |s.rows|
    case Complete(i) => i in s.loops && s.loops[i].Completing? && s.loops[i].id < |s.rows|
    case Release(i) => i in s.loops && s.loops[i].Releasing? && s.loops[i].id < |s.rows|
    case Stop(i) => i in s.loops
  }

  function At(s: Relay, i: string, p: Phase): Relay { s.(loops := s.loops[i := p]) }
  function SetRow(s: Relay, id: nat, row: Row): Relay
    requires id < |s.rows|
  {
    s.(rows := s.rows[id := row])
  }

  /** The outbox row of a committed transaction, if it left one. */
  ghost function Committed(s: Relay, c: Config, op: Op, version: string): Relay {
    var db := Apply(c, s.db, op, version);
    s.(db := db, rows := if |db.outbox| > |s.db.outbox| then s.rows + [NewRow(version)] else s.rows)
  }

  ghost function Do(s: Relay, step: Step): Relay
    requires Enabled(s, step)
  {
    match step
    case Commit(c, op, version) => Committed(s, c, op, version)
    case Tick(d) => s.(now := s.now + d)
    case Start(i) => At(s, i, Idle)
    case List(i) => At(s, i, Working(s.now - LEASE, Listing(s.rows, s.now - LEASE)))
    case Next(i) =>
      var p := s.loops[i];
      At(s, i, Claiming(p.leaseBefore, p.todo[0], s.now, p.todo[1..]))
    case Claim(i) =>
      var p := s.loops[i];
      if Eligible(s.rows[p.id], p.leaseBefore)
      then At(SetRow(s, p.id, Claimed(s.rows[p.id], i, p.stamp)), i, Publishing(p.leaseBefore, p.id, p.stamp, p.todo))
      else At(s, i, Working(p.leaseBefore, p.todo))
    case PublishOk(i) =>
      var p := s.loops[i];
      At(s, i, Completing(p.leaseBefore, p.id, p.stamp, p.todo)).(published := s.published + {s.rows[p.id].version})
    case PublishFails(i, arrived) =>
      var p := s.loops[i];
      At(s, i, Releasing(p.id, p.stamp)).(published := if arrived then s.published + {s.rows[p.id].version}
          else s.published)
    case Complete(i) =>
      var p := s.loops[i];
      var s' := if Held(s.rows[p.id], i) then SetRow(s, p.id, Completed(s.rows[p.id], p.stamp)) else s;
      At(s', i, Working(p.leaseBefore, p.todo))
    case Release(i) =>
      var p := s.loops[i];
      At(if Held(s.rows[p.id], i) then SetRow(s, p.id, Released(s.rows[p.id])) else s, i, Idle)
    case Stop(i) => At(s, i, Idle)
  }

  ghost predicate CanRun(s: Relay, steps: seq<Step>)
    decreases |steps|
  {
    steps != [] ==> Enabled(s, steps[0]) && CanRun(Do(s, steps[0]), steps[1..])
  }

  ghost function After(s: Relay, steps: seq<Step>): Relay
    requires CanRun(s, steps)
    decreases |steps|
  {
    if steps == [] then s else After(Do(s, steps[0]), steps[1..])
  }

  // ---------------------------------------------------------------- the invariant

  /** A row is locked exactly when it has an owner; a dispatched row was published and is free. */
  ghost predicate RowOk(s: Relay, row: Row) {
    && (row.lockedBy == "" <==> row.lockedAt.None?)
    && (row.dispatchedAt.Some? ==> row.version in s.published && row.lockedBy == "")
    && (row.lockedAt.Some? ==> row.lockedAt.value <= s.now)
  }

  predicate Holding(p: Phase) { p.Publishing? || p.Completing? || p.Releasing? }

  /** What a loop knows: its lease bound lies far enough back, and a row it holds under its own name
      is held by the very claim of this pass. */
  ghost predicate LoopOk(s: Relay, i: string, p: Phase) {
    && i != ""
    && (!p.Idle? && !p.Releasing? ==> p.leaseBefore + LEASE <= s.now)
    && (p.Working? ==> forall k :: 0 <= k < |p.todo| ==> p.todo[k] < |s.rows|)
    && (p.Claiming? || p.Publishing? || p.Completing? ==> forall k :: 0 <= k < |p.todo| ==> p.todo[k] < |s.rows|)
    && (p.Claiming? || Holding(p) ==> p.id < |s.rows| && p.stamp <= s.now)
    && (Holding(p) && s.rows[p.id].lockedBy == i ==> s.rows[p.id].lockedAt == Some(p.stamp))
    && (p.Completing? ==> s.rows[p.id].version in s.published)
  }

  ghost predicate RowsOk(s: Relay) { forall id :: 0 <= id < |s.rows| ==> RowOk(s, s.rows[id]) }
  ghost predicate LoopsOk(s: Relay) { forall i :: i in s.loops ==> LoopOk(s, i, s.loops[i]) }

  function Versions(rows: seq<Row>): seq<string> { seq(|rows|, i requires 0 <= i < |rows| => rows[i].version) }

  ghost predicate Good(s: Relay) { RowsOk(s) && LoopsOk(s) && Versions(s.rows) == s.db.outbox }

  ghost predicate Initial(s: Relay) { s.rows == [] && s.db.outbox == [] && s.loops == map[] }

  lemma InitialGood(s: Relay)
    requires Initial(s)
    ensures Good(s)
  {
  }

  // ---------------------------------------------------------------- each step keeps it

  lemma CommitGood(s: Relay, c: Config, op: Op, version: string)
    requires Good(s)
    ensures Good(Committed(s, c, op, version)) && s.rows <= Committed(s, c, op, version).rows
  {
    var s' := Committed(s, c, op, version);
    PolicyChangeIsRecorded(c, s.db, op, version);
    assert s.rows <= s'.rows;
    assert Versions(s.rows + [NewRow(version)]) == Versions(s.rows) + [version];
    forall id | 0 <= id < |s'.rows| ensures RowOk(s', s'.rows[id]) { assert id < |s.rows| ==> RowOk(s, s.rows[id]); }
    forall i | i in s'.loops ensures LoopOk(s', i, s'.loops[i]) { assert LoopOk(s, i, s.loops[i]); }
  }

  lemma TickGood(s: Relay, d: nat)
    requires Good(s)
    ensures Good(s.(now := s.now + d))
  {
    var s' := s.(now := s.now + d);
    forall id | 0 <= id < |s'.rows| ensures RowOk(s', s'.rows[id]) { assert RowOk(s, s.rows[id]); }
    forall i | i in s'.loops ensures LoopOk(s', i, s'.loops[i]) { assert LoopOk(s, i, s.loops[i]); }
  }

  lemma MoveGood(s: Relay, i: string, p: Phase)
    requires Good(s) && LoopOk(s, i, p)
    ensures Good(At(s, i, p))
  {
    var s' := At(s, i, p);
    forall id | 0 <= id < |s'.rows| ensures RowOk(s', s'.rows[id]) { assert RowOk(s, s.rows[id]); }
    forall j | j in s'.loops ensures LoopOk(s', j, s'.loops[j]) {
      if j == i { assert LoopOk(s', i, p); } else { assert LoopOk(s, j, s.loops[j]); }
    }
  }

  lemma PublishGood(s: Relay, version: string)
    requires Good(s)
    ensures Good(s.(published := s.published + {version}))
  {
    var s' := s.(published := s.published + {version});
    forall id | 0 <= id < |s'.rows| ensures RowOk(s', s'.rows[id]) { assert RowOk(s, s.rows[id]); }
    forall i | i in s'.loops ensures LoopOk(s', i, s'.loops[i]) { assert LoopOk(s, i, s.loops[i]); }
  }

  /** Writing a row that keeps its version and is free, or belongs to a loop that is not holding it
      under an older claim. */
  lemma WriteGood(s: Relay, id: nat, row: Row)
    requires Good(s) && id < |s.rows| && row.version == s.rows[id].version && RowOk(s, row)
    requires row.lockedBy != "" ==> row.lockedBy in s.loops ==> !Holding(s.loops[row.lockedBy])
    ensures Good(SetRow(s, id, row))
  {
    var s' := SetRow(s, id, row);
    assert Versions(s'.rows) == Versions(s.rows);
    forall k | 0 <= k < |s'.rows| ensures RowOk(s', s'.rows[k]) { if k != id { assert RowOk(s, s.rows[k]); } }
    forall i | i in s'.loops ensures LoopOk(s', i, s'.loops[i]) { assert LoopOk(s, i, s.loops[i]); }
  }

  lemma ClaimGood(s: Relay, i: string)
    requires Good(s) && Enabled(s, Claim(i))
    ensures Good(Do(s, Claim(i)))
  {
    var p := s.loops[i];
    assert LoopOk(s, i, p);
    if Eligible(s.rows[p.id], p.leaseBefore) {
      assert RowOk(s, s.rows[p.id]);
      var s' := SetRow(s, p.id, Claimed(s.rows[p.id], i, p.stamp));
      WriteGood(s, p.id, Claimed(s.rows[p.id], i, p.stamp));
      MoveGood(s', i, Publishing(p.leaseBefore, p.id, p.stamp, p.todo));
    } else {
      MoveGood(s, i, Working(p.leaseBefore, p.todo));
    }
  }

  lemma PublishStepGood(s: Relay, step: Step)
    requires Good(s) && Enabled(s, step) && (step.PublishOk? || step.PublishFails?)
    ensures Good(Do(s, step))
  {
    var p := s.loops[step.i];
    assert LoopOk(s, step.i, p);
    var s' := s.(published := s.published + {s.rows[p.id].version});
    PublishGood(s, s.rows[p.id].version);
    if step.PublishOk? {
      MoveGood(s', step.i, Completing(p.leaseBefore, p.id, p.stamp, p.todo));
    } else if step.arrived {
      MoveGood(s', step.i, Releasing(p.id, p.stamp));
    } else {
      MoveGood(s, step.i, Releasing(p.id, p.stamp));
    }
  }

  lemma FinishGood(s: Relay, step: Step)
    requires Good(s) && Enabled(s, step) && (step.Complete? || step.Release?)
    ensures Good(Do(s, step))
  {
    var p := s.loops[step.i];
    assert LoopOk(s, step.i, p) && RowOk(s, s.rows[p.id]);
    var next := if step.Complete? then Working(p.leaseBefore, p.todo) else Idle;
    if Held(s.rows[p.id], step.i) {
      var row := if step.Complete? then Completed(s.rows[p.id], p.stamp) else Released(s.rows[p.id]);
      WriteGood(s, p.id, row);
      MoveGood(SetRow(s, p.id, row), step.i, next);
    } else {
      MoveGood(s, step.i, next);
    }
  }

  lemma LoopStepGood(s: Relay, step: Step)
    requires Good(s) && Enabled(s, step) && (step.Start? || step.List? || step.Next? || step.Stop?)
    ensures Good(Do(s, step))
  {
    if step.Start? {
      MoveGood(s, step.i, Idle);
    } else {
      assert LoopOk(s, step.i, s.loops[step.i]);
      if step.Stop? {
        MoveGood(s, step.i, Idle);
      } else if step.List? {
        ListingIsEligible(s.rows, s.now - LEASE);
        MoveGood(s, step.i, Working(s.now - LEASE, Listing(s.rows, s.now - LEASE)));
      } else {
        var p := s.loops[step.i];
        MoveGood(s, step.i, Claiming(p.leaseBefore, p.todo[0], s.now, p.todo[1..]));
      }
    }
  }

  lemma StepGood(s: Relay, step: Step)
    requires Good(s) && Enabled(s, step)
    ensures Good(Do(s, step))
  {
    match step
    case Commit(c, op, version) => CommitGood(s, c, op, version);
    case Tick(d) => TickGood(s, d);
    case Claim(i) => ClaimGood(s, i);
    case PublishOk(i) => PublishStepGood(s, step);
    case PublishFails(i, _) => PublishStepGood(s, step);
    case Complete(i) => FinishGood(s, step);
    case Release(i) => FinishGood(s, step);
    case _ => LoopStepGood(s, step);
  }

  lemma {:induction false} RunGood(s: Relay, steps: seq<Step>)
    requires Good(s) && CanRun(s, steps)
    ensures Good(After(s, steps))
    decreases |steps|
  {
    if steps != [] {
      StepGood(s, steps[0]);
      RunGood(Do(s, steps[0]), steps[1..]);
    }
  }

  // ---------------------------------------------------------------- guarantees

  /** In every reachable state the outbox holds one row per recorded policy change, in order, and a
      dispatched row's version has been published. */
  lemma DispatchedWasPublished(s: Relay, steps: seq<Step>, id: nat)
    requires Initial(s) && CanRun(s, steps) && id < |After(s, steps).rows|
    ensures var s' := After(s, steps);
      && Versions(s'.rows) == s'.db.outbox
      && (s'.rows[id].dispatchedAt.Some? ==> s'.rows[id].version in s'.published)
  {
    InitialGood(s);
    RunGood(s, steps);
    assert RowOk(After(s, steps), After(s, steps).rows[id]);
  }

  /** A dispatched row never changes again, in particular not its time of dispatch. */
  lemma StepKeepsDispatched(s: Relay, step: Step, id: nat)
    requires Good(s) && Enabled(s, step) && id < |s.rows|
    ensures id < |Do(s, step).rows| && Do(s, step).rows[id].version == s.rows[id].version
    ensures s.rows[id].dispatchedAt.Some? ==> Do(s, step).rows[id] == s.rows[id]
  {
    if step.Commit? { CommitGood(s, step.c, step.op, step.version); }
  }

  lemma {:induction false} DispatchedIsFinal(s: Relay, steps: seq<Step>, id: nat)
    requires Good(s) && CanRun(s, steps) && id < |s.rows|
    ensures id < |After(s, steps).rows| && After(s, steps).rows[id].version == s.rows[id].version
    ensures s.rows[id].dispatchedAt.Some? ==> After(s, steps).rows[id] == s.rows[id]
    decreases |steps|
  {
    if steps != [] {
      StepGood(s, steps[0]);
      StepKeepsDispatched(s, steps[0], id);
      DispatchedIsFinal(Do(s, steps[0]), steps[1..], id);
    }
  }

  /** Any change to an existing row is a claim of a free row or of one whose lease has run out, or
      the completion or release, by the owner, of the very claim its current pass has made. */
  lemma ChangesAreOwned(s: Relay, step: Step, id: nat)
    requires Good(s) && Enabled(s, step) && id < |s.rows| && Do(s, step).rows[id] != s.rows[id]
    ensures step.Claim? || step.Complete? || step.Release?
    ensures step.Claim? ==> s.rows[id].lockedAt.None? || s.rows[id].lockedAt.value + LEASE < s.now
    ensures !step.Claim? ==> s.rows[id].lockedBy == step.i && s.rows[id].lockedAt == Some(s.loops[step.i].stamp)
    ensures s.rows[id].dispatchedAt.None?
  {
    if step.Commit? { CommitGood(s, step.c, step.op, step.version); }
    if step.Claim? || step.Complete? || step.Release? { assert LoopOk(s, step.i, s.loops[step.i]); }
  }

  /** An instance runs one loop, and one pass at a time. */
  lemma OnePassAtATime(s: Relay, i: string)
    requires i in s.loops
    ensures !Enabled(s, Start(i)) && (Enabled(s, List(i)) <==> s.loops[i].Idle?)
  {
  }

  /** A claim takes effect exactly when the row still waits; otherwise the loop passes it over. */
  lemma ClaimTakesEffectIff(s: Relay, i: string)
    requires Enabled(s, Claim(i))
    ensures var p, s' := s.loops[i], Do(s, Claim(i));
      var row := s.rows[p.id];
      if Waiting(row, p.leaseBefore)
      then s'.rows == s.rows[p.id := Row(row.version, row.attempts, None, Some(p.stamp), i)]
           && s'.loops == s.loops[i := Publishing(p.leaseBefore, p.id, p.stamp, p.todo)]
      else s'.rows == s.rows && s'.loops == s.loops[i := Working(p.leaseBefore, p.todo)]
  {
  }

  /** So while a claim is within its lease, nobody but its owner touches the row. */
  lemma LeaseIsExclusive(s: Relay, step: Step, id: nat)
    requires Good(s) && Enabled(s, step) && id < |s.rows|
    requires s.rows[id].lockedAt.Some? && s.now <= s.rows[id].lockedAt.value + LEASE
    requires step.Claim? || step.Complete? || step.Release? ==> step.i != s.rows[id].lockedBy
    ensures Do(s, step).rows[id] == s.rows[id]
  {
    if Do(s, step).rows[id] != s.rows[id] { ChangesAreOwned(s, step, id); }
  }

  /** A row becomes dispatched only in the completion step of the instance that published it. */
  lemma DispatchFollowsPublication(s: Relay, step: Step, id: nat)
    requires Good(s) && Enabled(s, step) && id < |s.rows|
    requires s.rows[id].dispatchedAt.None? && Do(s, step).rows[id].dispatchedAt.Some?
    ensures step.Complete? && s.loops[step.i].id == id && s.rows[id].lockedBy == step.i
        && s.rows[id].version in s.published
    ensures Do(s, step).rows[id].dispatchedAt == s.rows[id].lockedAt
  {
    ChangesAreOwned(s, step, id);
    assert LoopOk(s, step.i, s.loops[step.i]);
  }

  /** A transaction that changes rules adds its own undispatched row at the end. */
  lemma ChangeReachesOutbox(s: Relay, c: Config, op: Op, version: string)
    requires Good(s) && Apply(c, s.db, op, version).rules != s.db.rules
    ensures Committed(s, c, op, version).rows == s.rows + [Row(version, 0, None, None, "")]
  {
    PolicyChangeIsRecorded(c, s.db, op, version);
  }
}
