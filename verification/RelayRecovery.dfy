/** What an instance left behind is relayed by another: from every state of the outbox there is a run
    that dispatches a waiting row. */
module RelayRecovery {
  import opened Options
  import opened PolicyRelay

  lemma {:induction false} RunAppend(s: Relay, a: seq<Step>, b: seq<Step>)
    requires CanRun(s, a) && CanRun(After(s, a), b)
    ensures CanRun(s, a + b) && After(s, a + b) == After(After(s, a), b)
    decreases |a|
  {
    if a == [] {
      assert a + b == b;
    } else {
      assert (a + b)[0] == a[0] && (a + b)[1..] == a[1..] + b;
      RunAppend(Do(s, a[0]), a[1..], b);
    }
  }

  lemma OneStep(s: Relay, step: Step)
    requires Enabled(s, step)
    ensures CanRun(s, [step]) && After(s, [step]) == Do(s, step)
  {
    assert [step][1..] == [];
    assert CanRun(Do(s, step), []) && After(Do(s, step), []) == Do(s, step);
  }

  lemma RunOn(s: Relay, a: seq<Step>, step: Step)
    requires CanRun(s, a) && Enabled(After(s, a), step)
    ensures CanRun(s, a + [step]) && After(s, a + [step]) == Do(After(s, a), step)
  {
    OneStep(After(s, a), step);
    RunAppend(s, a, [step]);
  }

  /** Any instance can begin a pass: a new one is started, one that is busy gives up its pass. */
  lemma Reset(s: Relay, i: string) returns (steps: seq<Step>)
    requires i != ""
    ensures CanRun(s, steps) && After(s, steps) == At(s, i, Idle)
  {
    if i in s.loops {
      steps := [Stop(i)];
      OneStep(s, Stop(i));
    } else {
      steps := [Start(i)];
      OneStep(s, Start(i));
    }
  }

  /** The row after it has been relayed at the given time. */
  function RelayedAt(row: Row, time: nat): Row { Row(row.version, row.attempts + 1, Some(time), None, "") }

  /** The instance lists and takes the first row. */
  lemma TakeFirst(s: Relay, i: string, id: nat) returns (steps: seq<Step>, todo: seq<nat>)
    requires i in s.loops && s.loops[i].Idle? && id < |s.rows| && Waiting(s.rows[id], s.now - LEASE)
    requires WaitingBelow(s.rows, s.now - LEASE, id) == 0
    ensures CanRun(s, steps) && After(s, steps) == At(s, i, Claiming(s.now - LEASE, id, s.now, todo))
  {
    var bound := s.now - LEASE;
    var s1 := Do(s, List(i));
    WaitingAt(s.rows, bound, |s.rows|, id);
    assert Listing(s.rows, bound)[0] == id;
    todo := Listing(s.rows, bound)[1..];
    OneStep(s, List(i));
    steps := [List(i)] + [Next(i)];
    RunOn(s, [List(i)], Next(i));
    assert At(s1, i, Claiming(bound, id, s.now, todo)) == At(s, i, Claiming(bound, id, s.now, todo));
  }

  /** It claims, publishes and completes it. */
  lemma RelayTaken(s: Relay, i: string) returns (steps: seq<Step>)
    requires i in s.loops && s.loops[i].Claiming? && s.loops[i].id < |s.rows|
    requires Waiting(s.rows[s.loops[i].id], s.loops[i].leaseBefore)
    ensures CanRun(s, steps)
    ensures var p, row := s.loops[i], s.rows[s.loops[i].id];
      After(s, steps) == s.(rows := s.rows[p.id := RelayedAt(row, p.stamp)], published := s.published + {row.version},
                            loops := s.loops[i := Working(p.leaseBefore, p.todo)])
  {
    var p, row := s.loops[i], s.rows[s.loops[i].id];
    ClaimTakesEffectIff(s, i);
    var s1 := Do(s, Claim(i));
    var s2 := Do(s1, PublishOk(i));
    var s3 := Do(s2, Complete(i));
    OneStep(s, Claim(i));
    RunOn(s, [Claim(i)], PublishOk(i));
    steps := [Claim(i)] + [PublishOk(i)] + [Complete(i)];
    RunOn(s, [Claim(i)] + [PublishOk(i)], Complete(i));
    assert s3.rows == s.rows[p.id := RelayedAt(row, p.stamp)];
    assert s3.loops == s.loops[i := Working(p.leaseBefore, p.todo)];
  }

  /** Then it is free again. */
  lemma Finish(s: Relay, i: string) returns (steps: seq<Step>)
    requires i in s.loops && s.loops[i].Claiming? && s.loops[i].id < |s.rows|
    requires Waiting(s.rows[s.loops[i].id], s.loops[i].leaseBefore)
    ensures CanRun(s, steps)
    ensures var id, row := s.loops[i].id, s.rows[s.loops[i].id];
      After(s, steps) == s.(rows := s.rows[id := RelayedAt(row, s.loops[i].stamp)],
                            loops := s.loops[i := Idle], published := s.published + {row.version})
  {
    var relay := RelayTaken(s, i);
    var s1 := After(s, relay);
    RunOn(s, relay, Stop(i));
    steps := relay + [Stop(i)];
    assert s1.loops[i := Idle] == s.loops[i := Idle];
  }

  /** One pass relays the first waiting row. */
  lemma RelayFirst(s: Relay, i: string, id: nat) returns (steps: seq<Step>)
    requires i in s.loops && s.loops[i].Idle? && id < |s.rows| && Waiting(s.rows[id], s.now - LEASE)
    requires WaitingBelow(s.rows, s.now - LEASE, id) == 0
    ensures CanRun(s, steps)
    ensures After(s, steps) == s.(rows := s.rows[id := RelayedAt(s.rows[id], s.now)],
                                  published := s.published + {s.rows[id].version})
  {
    var taken, todo := TakeFirst(s, i, id);
    var s1 := After(s, taken);
    var rest := Finish(s1, i);
    steps := taken + rest;
    RunAppend(s, taken, rest);
    assert s1.loops[i := Idle] == s.loops;
  }

  lemma {:induction false} FirstWaiting(rows: seq<Row>, bound: int, n: nat) returns (id: nat)
    requires n <= |rows| && WaitingBelow(rows, bound, n) > 0
    ensures id < n && Waiting(rows[id], bound) && WaitingBelow(rows, bound, id) == 0
  {
    if WaitingBelow(rows, bound, n - 1) > 0 { id := FirstWaiting(rows, bound, n - 1); } else { id := n - 1; }
  }

  /** Relaying one row takes it out of the count and no other. */
  lemma {:induction false} OneLess(rows: seq<Row>, bound: int, first: nat, time: nat, n: nat)
    requires first < |rows| && n <= |rows| && Waiting(rows[first], bound)
    ensures WaitingBelow(rows[first := RelayedAt(rows[first], time)], bound, n)
         == WaitingBelow(rows, bound, n) - if first < n then 1 else 0
  {
    if n > 0 { OneLess(rows, bound, first, time, n - 1); }
  }

  lemma {:induction false} Recover(s: Relay, i: string, id: nat) returns (steps: seq<Step>)
    requires i in s.loops && s.loops[i].Idle? && id < |s.rows| && Waiting(s.rows[id], s.now - LEASE)
    ensures CanRun(s, steps) && |After(s, steps).rows| == |s.rows|
    ensures After(s, steps).rows[id] == RelayedAt(s.rows[id], s.now)
    ensures s.rows[id].version in After(s, steps).published
    decreases WaitingBelow(s.rows, s.now - LEASE, id)
  {
    var bound := s.now - LEASE;
    if WaitingBelow(s.rows, bound, id) == 0 {
      steps := RelayFirst(s, i, id);
    } else {
      var first := FirstWaiting(s.rows, bound, id);
      var pass := RelayFirst(s, i, first);
      OneLess(s.rows, bound, first, s.now, id);
      var rest := Recover(After(s, pass), i, id);
      steps := pass + rest;
      RunAppend(s, pass, rest);
    }
  }

  /** A crashed instance loses nothing: in every state, any instance can bring about that an undispatched
      row is published and dispatched, as soon as the row's lock, if it has one, is more than thirty
      seconds old. */
  lemma StaleClaimIsRecovered(s: Relay, i: string, id: nat)
    requires i != "" && id < |s.rows| && s.rows[id].dispatchedAt == None
    requires s.rows[id].lockedAt.Some? ==> s.rows[id].lockedAt.value + 30 < s.now
    ensures exists steps :: CanRun(s, steps) && Dispatches(s, After(s, steps), id)
  {
    var reset := Reset(s, i);
    var s1 := After(s, reset);
    var rest := Recover(s1, i, id);
    RunAppend(s, reset, rest);
    assert CanRun(s, reset + rest) && Dispatches(s, After(s, reset + rest), id);
  }

  ghost predicate Dispatches(s: Relay, after: Relay, id: nat)
    requires id < |s.rows|
  {
    && |after.rows| == |s.rows| && s.rows[id].version in after.published
    && after.rows[id] == Row(s.rows[id].version, s.rows[id].attempts + 1, Some(s.now), None, "")
  }

  ghost predicate DispatchesLater(s: Relay, after: Relay, id: nat)
    requires id < |s.rows|
  {
    Dispatches(s.(now := s.now + 31), after, id)
  }

  lemma TickOnly(s: Relay, seconds: nat)
    ensures Enabled(s, Tick(seconds)) && Do(s, Tick(seconds)) == s.(now := s.now + seconds)
  {
  }

  /** So every recorded change can still be brought out, whoever died holding it: in every state, after
      thirty-one seconds. */
  lemma EveryChangeCanBeRelayed(s: Relay, i: string, id: nat)
    requires Good(s) && i != "" && id < |s.rows| && s.rows[id].dispatchedAt == None
    ensures exists steps :: CanRun(s, [Tick(31)] + steps) && DispatchesLater(s, After(s, [Tick(31)] + steps), id)
  {
    var s1 := Do(s, Tick(31));
    TickOnly(s, 31);
    assert RowOk(s, s.rows[id]);
    StaleClaimIsRecovered(s1, i, id);
    var steps :| CanRun(s1, steps) && Dispatches(s1, After(s1, steps), id);
    OneStep(s, Tick(31));
    RunAppend(s, [Tick(31)], steps);
    assert CanRun(s, [Tick(31)] + steps) && DispatchesLater(s, After(s, [Tick(31)] + steps), id);
  }

  // ---------------------------------------------------------------- an undisturbed pass

  /** A clock that stands still. */
  function Stopped(now: nat): nat -> nat { _ => now }

  ghost function VersionsOf(rows: seq<Row>, ids: seq<nat>, n: nat): set<string>
    requires n <= |ids| && forall k :: 0 <= k < |ids| ==> ids[k] < |rows|
  {
    if n == 0 then {} else VersionsOf(rows, ids, n - 1) + {rows[ids[n - 1]].version}
  }

  /** What the outbox is after the first `n` listed rows have been relayed. */
  ghost function Passed(s: Relay, i: string, ids: seq<nat>, n: nat): Relay
    requires n <= |ids| && forall k :: 0 <= k < |ids| ==> ids[k] < |s.rows|
  {
    s.(rows := Dispatched(s.rows, ids, n, Stopped(s.now)),
       published := s.published + VersionsOf(s.rows, ids, n),
       loops := s.loops[i := Working(s.now - LEASE, ids[n..])])
  }

  /** Claim, publication and completion of the next row. */
  lemma RelayNext(s: Relay, i: string) returns (steps: seq<Step>)
    requires i in s.loops && s.loops[i].Working? && s.loops[i].todo != [] && s.loops[i].todo[0] < |s.rows|
    requires Waiting(s.rows[s.loops[i].todo[0]], s.loops[i].leaseBefore)
    ensures CanRun(s, steps)
    ensures var p := s.loops[i];
      After(s, steps) == s.(rows := s.rows[p.todo[0] := RelayedAt(s.rows[p.todo[0]], s.now)],
                            loops := s.loops[i := Working(p.leaseBefore, p.todo[1..])],
                            published := s.published + {s.rows[p.todo[0]].version})
  {
    var p := s.loops[i];
    var s1 := Do(s, Next(i));
    var relay := RelayTaken(s1, i);
    OneStep(s, Next(i));
    RunAppend(s, [Next(i)], relay);
    steps := [Next(i)] + relay;
    assert s1.loops[i := Working(p.leaseBefore, p.todo[1..])] == s.loops[i := Working(p.leaseBefore, p.todo[1..])];
  }

  lemma StillWaiting(s: Relay, i: string, ids: seq<nat>, n: nat)
    requires Ascending(ids, |s.rows|) && n < |ids| && Waiting(s.rows[ids[n]], s.now - LEASE)
    ensures Passed(s, i, ids, n).rows[ids[n]] == s.rows[ids[n]]
  {
    NotYet(ids, |s.rows|, n);
    UntouchedRows(s.rows, ids, n, Stopped(s.now), ids[n]);
  }

  lemma PassedMore(s: Relay, i: string, ids: seq<nat>, n: nat)
    requires Ascending(ids, |s.rows|) && n < |ids| && Waiting(s.rows[ids[n]], s.now - LEASE)
    ensures var before, row := Passed(s, i, ids, n), s.rows[ids[n]];
      Passed(s, i, ids, n + 1) == before.(rows := before.rows[ids[n] := RelayedAt(row, s.now)],
                                          loops := before.loops[i := Working(s.now - LEASE, ids[n..][1..])],
                                          published := before.published + {row.version})
  {
    StillWaiting(s, i, ids, n);
    assert ids[n..][1..] == ids[n + 1..];
    var before, after := Passed(s, i, ids, n), Passed(s, i, ids, n + 1);
    assert after.published == before.published + {s.rows[ids[n]].version};
  }

  lemma {:induction false} PassRun(s: Relay, i: string, ids: seq<nat>, n: nat) returns (steps: seq<Step>)
    requires i in s.loops && s.loops[i] == Working(s.now - LEASE, ids) && Ascending(ids, |s.rows|) && n <= |ids|
    requires forall k :: 0 <= k < |ids| ==> Waiting(s.rows[ids[k]], s.now - LEASE)
    ensures CanRun(s, steps) && After(s, steps) == Passed(s, i, ids, n)
    decreases n
  {
    if n == 0 {
      steps := [];
      NothingPassed(s, i, ids);
    } else {
      var first := PassRun(s, i, ids, n - 1);
      var next := PassNext(s, i, ids, n - 1);
      RunAppend(s, first, next);
      steps := first + next;
    }
  }

  lemma NothingPassed(s: Relay, i: string, ids: seq<nat>)
    requires i in s.loops && s.loops[i] == Working(s.now - LEASE, ids) && Ascending(ids, |s.rows|)
    ensures Passed(s, i, ids, 0) == s
  {
    assert ids[0..] == ids && s.loops[i := Working(s.now - LEASE, ids)] == s.loops;
    assert s.published + VersionsOf(s.rows, ids, 0) == s.published;
  }

  lemma PassNext(s: Relay, i: string, ids: seq<nat>, n: nat) returns (steps: seq<Step>)
    requires Ascending(ids, |s.rows|) && n < |ids| && Waiting(s.rows[ids[n]], s.now - LEASE)
    ensures CanRun(Passed(s, i, ids, n), steps) && After(Passed(s, i, ids, n), steps) == Passed(s, i, ids, n + 1)
  {
    StillWaiting(s, i, ids, n);
    steps := RelayNext(Passed(s, i, ids, n), i);
    PassedMore(s, i, ids, n);
  }

  /** The outbox is as `PolicyRelay.Outbox.RelayPass` leaves it, and the loop has nothing left to do. */
  ghost predicate PassDone(s: Relay, after: Relay, i: string) {
    var ids := Listing(s.rows, s.now - LEASE);
    && Ascending(ids, |s.rows|) && after.rows == Dispatched(s.rows, ids, |ids|, Stopped(s.now))
    && after.loops == s.loops[i := Working(s.now - LEASE, [])]
  }

  /** A pass that nobody disturbs and whose publications succeed is a run of the interleaved system. */
  lemma PassIsRun(s: Relay, i: string)
    requires i in s.loops && s.loops[i].Idle?
    ensures exists steps :: CanRun(s, steps) && PassDone(s, After(s, steps), i)
  {
    var ids := Listing(s.rows, s.now - LEASE);
    ListingIsEligible(s.rows, s.now - LEASE);
    var s1 := Do(s, List(i));
    var steps := PassRun(s1, i, ids, |ids|);
    OneStep(s, List(i));
    RunAppend(s, [List(i)], steps);
    PassedAll(s, s1, i, ids);
    assert CanRun(s, [List(i)] + steps) && PassDone(s, After(s, [List(i)] + steps), i);
  }

  lemma PassedAll(s: Relay, s1: Relay, i: string, ids: seq<nat>)
    requires ids == Listing(s.rows, s.now - LEASE) && Ascending(ids, |s.rows|)
    requires s1 == At(s, i, Working(s.now - LEASE, ids))
    ensures PassDone(s, Passed(s1, i, ids, |ids|), i)
  {
    assert ids[|ids|..] == [];
    assert s1.loops[i := Working(s.now - LEASE, [])] == s.loops[i := Working(s.now - LEASE, [])];
  }

  /** A publication that fails sends the row back, for anybody to take, and ends the pass; whether the
      message arrived does not show in the outbox. */
  lemma FailedPublication(s: Relay, i: string, arrived: bool)
    requires Good(s) && Enabled(s, PublishFails(i, arrived))
    ensures var id := s.loops[i].id;
      var s1 := Do(s, PublishFails(i, arrived));
      && s1.rows == s.rows && s1.published == s.published + (if arrived then {s.rows[id].version} else {})
      && Enabled(s1, Release(i))
      && Do(s1, Release(i)).loops == s.loops[i := Idle]
      && Do(s1, Release(i)).rows ==
         (if s.rows[id].dispatchedAt == None && s.rows[id].lockedBy == i
          then s.rows[id := Row(s.rows[id].version, s.rows[id].attempts + 1, None, None, "")] else s.rows)
  {
    assert LoopOk(s, i, s.loops[i]);
    assert s.published + {} == s.published;
  }
}
