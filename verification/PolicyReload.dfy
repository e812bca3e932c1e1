/** The cached enforcer of one service instance: concurrent reloads, each a few steps under a mutex,
    interleaved with transactions committed by any instance. */
module PolicyReload {
  import opened Options
  import opened Rbac

  /** A call of `reloadPolicy`; `begun` counts the commits that had happened when it was called. */
  datatype Phase =
    | Waiting(begun: nat)
    | Locked(begun: nat)
    | Loaded(begun: nat, seen: nat)
    | Stored(begun: nat)
    | Failed

  /** `history[k]` is the database after `k` commits; `snapshot` tells which of these states the
      stored enforcer was loaded from. */
  datatype Instance = Instance(history: seq<Db>, snapshot: nat, holder: Option<nat>, calls: map<nat, Phase>)

  function Commits(s: Instance): int { |s.history| - 1 }

  datatype Step =
    | Commit(c: Config, op: Op, version: string)
    | Request(id: nat)
    | Lock(id: nat)
    | Load(id: nat)
    | Fail(id: nat)
    | Store(id: nat)

  predicate Enabled(s: Instance, step: Step) {
    match step
    case Commit(_, _, _) => s.history != []
    case Request(id) => id !in s.calls && s.history != []
    case Lock(id) => id in s.calls && s.calls[id].Waiting? && s.holder.None?
    case Load(id) => id in s.calls && s.calls[id].Locked? && s.history != []
    case Fail(id) => id in s.calls && (s.calls[id].Locked? || s.calls[id].Loaded?)
    case Store(id) => id in s.calls && s.calls[id].Loaded?
  }

  ghost function Do(s: Instance, step: Step): Instance
    requires Enabled(s, step)
  {
    match step
    case Commit(c, op, version) => s.(history := s.history + [Apply(c, s.history[|s.history| - 1], op, version)])
    case Request(id) => s.(calls := s.calls[id := Waiting(Commits(s))])
    case Lock(id) => s.(calls := s.calls[id := Locked(s.calls[id].begun)], holder := Some(id))
    case Load(id) => s.(calls := s.calls[id := Loaded(s.calls[id].begun, Commits(s))])
    case Fail(id) => s.(calls := s.calls[id := Failed], holder := None)
    case Store(id) => s.(calls := s.calls[id := Stored(s.calls[id].begun)], holder := None,
        snapshot := s.calls[id].seen)
  }

  ghost predicate CanRun(s: Instance, steps: seq<Step>)
    decreases |steps|
  {
    steps != [] ==> Enabled(s, steps[0]) && CanRun(Do(s, steps[0]), steps[1..])
  }

  ghost function After(s: Instance, steps: seq<Step>): Instance
    requires CanRun(s, steps)
    decreases |steps|
  {
    if steps == [] then s else After(Do(s, steps[0]), steps[1..])
  }

  /** Only the holder is past the mutex; what it has loaded is at least as recent as what is stored,
      and no older than the moment of the call. */
  ghost predicate CallOk(s: Instance, id: nat, p: Phase) {
    && (p.Locked? || p.Loaded? ==> s.holder == Some(id))
    && (!p.Failed? ==> p.begun <= Commits(s))
    && (p.Loaded? ==> p.begun <= p.seen <= Commits(s) && s.snapshot <= p.seen)
    && (p.Stored? ==> p.begun <= s.snapshot)
  }

  ghost predicate Good(s: Instance) {
    && s.history != [] && s.snapshot <= Commits(s)
    && forall id :: id in s.calls ==> CallOk(s, id, s.calls[id])
  }

  lemma StepGood(s: Instance, step: Step)
    requires Good(s) && Enabled(s, step)
    ensures Good(Do(s, step)) && s.snapshot <= Do(s, step).snapshot && s.history <= Do(s, step).history
  {
    var s' := Do(s, step);
    HistoryGrows(s, step);
    forall id | id in s'.calls ensures CallOk(s', id, s'.calls[id]) { CallStep(s, step, id); }
  }

  lemma HistoryGrows(s: Instance, step: Step)
    requires Good(s) && Enabled(s, step)
    ensures var s' := Do(s, step);
      s.history <= s'.history && s'.history != [] && s.snapshot <= s'.snapshot <= Commits(s')
  {
    if step.Store? { assert CallOk(s, step.id, s.calls[step.id]); }
  }

  lemma CallStep(s: Instance, step: Step, id: nat)
    requires Good(s) && Enabled(s, step) && id in Do(s, step).calls
    ensures CallOk(Do(s, step), id, Do(s, step).calls[id])
  {
    if step.Load? || step.Fail? || step.Store? { assert CallOk(s, step.id, s.calls[step.id]); }
    assert id in s.calls ==> CallOk(s, id, s.calls[id]);
  }

  /** Over every run the stored snapshot never moves back, and stays within the committed history. */
  lemma {:induction false} SnapshotsAdvance(s: Instance, steps: seq<Step>)
    requires Good(s) && CanRun(s, steps)
    ensures Good(After(s, steps)) && s.snapshot <= After(s, steps).snapshot && s.history <= After(s, steps).history
    decreases |steps|
  {
    if steps != [] {
      StepGood(s, steps[0]);
      SnapshotsAdvance(Do(s, steps[0]), steps[1..]);
    }
  }

  lemma {:induction false} CallKeepsBegin(s: Instance, steps: seq<Step>, id: nat)
    requires CanRun(s, steps) && id in s.calls && !s.calls[id].Failed?
    ensures id in After(s, steps).calls
    ensures !After(s, steps).calls[id].Failed? ==> After(s, steps).calls[id].begun == s.calls[id].begun
    decreases |steps|
  {
    if steps != [] {
      var next := Do(s, steps[0]);
      if next.calls[id].Failed? { FailedStays(next, steps[1..], id); } else { CallKeepsBegin(next, steps[1..], id); }
    }
  }

  lemma {:induction false} FailedStays(s: Instance, steps: seq<Step>, id: nat)
    requires CanRun(s, steps) && id in s.calls && s.calls[id].Failed?
    ensures id in After(s, steps).calls && After(s, steps).calls[id].Failed?
    decreases |steps|
  {
    if steps != [] { FailedStays(Do(s, steps[0]), steps[1..], id); }
  }

  /** A reload that is called after a commit and succeeds leaves a snapshot that includes it, from
      then on: whatever commits and reloads are interleaved, the enforcer's rules are those of a
      state at least as recent as the call. */
  lemma ReloadIncludesCommit(s: Instance, id: nat, steps: seq<Step>)
    requires Good(s) && Enabled(s, Request(id)) && CanRun(Do(s, Request(id)), steps)
    ensures var s' := After(Do(s, Request(id)), steps);
      && id in s'.calls
      && (s'.calls[id].Stored? ==> Commits(s) <= s'.snapshot < |s'.history| && s.history <= s'.history)
  {
    var called := Do(s, Request(id));
    StepGood(s, Request(id));
    SnapshotsAdvance(called, steps);
    CallKeepsBegin(called, steps, id);
    assert CallOk(After(called, steps), id, After(called, steps).calls[id]);
  }

  /** Enforcement after such a reload: if nothing was committed since the call, the cached rules are
      exactly the committed ones. */
  lemma ReloadedRulesAreCurrent(s: Instance, id: nat, steps: seq<Step>)
    requires Good(s) && Enabled(s, Request(id)) && CanRun(Do(s, Request(id)), steps)
    ensures var s' := After(Do(s, Request(id)), steps);
      id in s'.calls && (s'.calls[id].Stored? && |s'.history| == |s.history| ==>
        s'.snapshot < |s'.history| && s'.history[s'.snapshot].rules == s.history[|s.history| - 1].rules)
  {
    ReloadIncludesCommit(s, id, steps);
    var after := After(Do(s, Request(id)), steps);
    if after.calls[id].Stored? && |after.history| == |s.history| {
      assert after.history == s.history[..|s.history|] == s.history;
      assert after.snapshot == |s.history| - 1;
    }
  }

  // ---------------------------------------------------------------- reloads come to an end

  /** A commit adds the database as its transaction leaves it, and nothing else happens. */
  lemma CommitIsRecorded(s: Instance, c: Config, op: Op, version: string)
    requires s.history != []
    ensures var s' := Do(s, Commit(c, op, version));
      && |s'.history| == |s.history| + 1 && s.history <= s'.history
      && s'.history[|s.history|] == Apply(c, s.history[|s.history| - 1], op, version)
      && s'.calls == s.calls && s'.holder == s.holder && s'.snapshot == s.snapshot
  {
  }

  /** The mutex is held by a call that has taken it and is not over. */
  ghost predicate HolderOk(s: Instance) {
    s.holder.Some? ==>
      s.holder.value in s.calls && (s.calls[s.holder.value].Locked? || s.calls[s.holder.value].Loaded?)
  }

  /** So no two calls are past the mutex at once. */
  lemma MutualExclusion(s: Instance, a: nat, b: nat)
    requires Good(s) && a in s.calls && b in s.calls
    requires (s.calls[a].Locked? || s.calls[a].Loaded?) && (s.calls[b].Locked? || s.calls[b].Loaded?)
    ensures a == b
  {
    assert CallOk(s, a, s.calls[a]) && CallOk(s, b, s.calls[b]);
  }

  lemma StepKeepsHolder(s: Instance, step: Step)
    requires Good(s) && HolderOk(s) && Enabled(s, step)
    ensures HolderOk(Do(s, step))
  {
    if step.Load? || step.Fail? || step.Store? { assert CallOk(s, step.id, s.calls[step.id]); }
  }

  lemma {:induction false} RunKeepsHolder(s: Instance, steps: seq<Step>)
    requires Good(s) && HolderOk(s) && CanRun(s, steps)
    ensures HolderOk(After(s, steps))
    decreases |steps|
  {
    if steps != [] {
      StepGood(s, steps[0]);
      StepKeepsHolder(s, steps[0]);
      RunKeepsHolder(Do(s, steps[0]), steps[1..]);
    }
  }

  lemma OneMore(s: Instance, step: Step, rest: seq<Step>)
    requires Enabled(s, step) && CanRun(Do(s, step), rest)
    ensures CanRun(s, [step] + rest) && After(s, [step] + rest) == After(Do(s, step), rest)
  {
    assert ([step] + rest)[0] == step && ([step] + rest)[1..] == rest;
  }

  /** With the mutex free a waiting call takes it, loads what is committed, stores it and frees the mutex. */
  lemma FreeCallCompletes(s: Instance, id: nat)
    requires s.history != [] && id in s.calls && s.calls[id].Waiting? && s.holder.None?
    ensures CanRun(s, [Lock(id), Load(id), Store(id)])
    ensures var s' := After(s, [Lock(id), Load(id), Store(id)]);
      s'.calls == s.calls[id := Stored(s.calls[id].begun)] && s'.snapshot == |s.history| - 1 && s'.holder == None
      && s'.history == s.history
  {
    var s1 := Do(s, Lock(id));
    var s2 := Do(s1, Load(id));
    var s3 := Do(s2, Store(id));
    assert CanRun(s3, []) && After(s3, []) == s3;
    OneMore(s2, Store(id), []);
    OneMore(s1, Load(id), [Store(id)]);
    OneMore(s, Lock(id), [Load(id), Store(id)]);
    assert [Store(id)] + [] == [Store(id)] && [Load(id)] + [Store(id)] == [Load(id), Store(id)];
    assert [Lock(id)] + [Load(id), Store(id)] == [Lock(id), Load(id), Store(id)];
  }

  /** In every state a waiting call can be brought to its end, even if the call that holds the mutex
      fails; then the enforcer has the rules committed last. */
  lemma WaitingCallCompletes(s: Instance, id: nat)
    requires Good(s) && HolderOk(s) && id in s.calls && s.calls[id].Waiting?
    ensures exists steps :: CanRun(s, steps) && Completed(s, After(s, steps), id)
  {
    var last := [Lock(id), Load(id), Store(id)];
    if s.holder.None? {
      FreeCallCompletes(s, id);
      assert CanRun(s, last) && Completed(s, After(s, last), id);
    } else {
      var step := Fail(s.holder.value);
      FreeCallCompletes(Do(s, step), id);
      OneMore(s, step, last);
      assert CanRun(s, [step] + last) && Completed(s, After(s, [step] + last), id);
    }
  }

  ghost predicate Completed(s: Instance, after: Instance, id: nat) {
    id in after.calls && after.calls[id].Stored? && after.snapshot == |s.history| - 1 && after.history == s.history
    && after.holder == None
  }
}
