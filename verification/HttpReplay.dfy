/** The HTTP side of the idempotent write protocol: the buffered writer a handler runs against, the
    headers that are kept for replay, and what the client receives. */
module HttpReplay {
  import opened Options
  import opened HttpHeaders
  import opened Idempotency

  const ETAG: HeaderName := ["ETag"]

  /** Content-Type, Location, ETag, Cache-Control. */
  const REPLAYABLE: seq<HeaderName> := [["Content", "Type"], ["Location"], ETAG, ["Cache", "Control"]]

  lemma ContentWord()
    ensures AllTokens("Content") && CanonicalWord("Content") == "Content"
  {
  }

  lemma TypeWord()
    ensures AllTokens("Type") && CanonicalWord("Type") == "Type"
  {
  }

  lemma LocationWord()
    ensures AllTokens("Location") && CanonicalWord("Location") == "Location"
  {
  }

  lemma CacheWord()
    ensures AllTokens("Cache") && CanonicalWord("Cache") == "Cache"
  {
  }

  lemma ControlWord()
    ensures AllTokens("Control") && CanonicalWord("Control") == "Control"
  {
  }

  lemma ETagWord()
    ensures AllTokens("ETag") && CanonicalWord("ETag") == "Etag"
  {
  }

  lemma CanonicalOne(a: string)
    requires AllTokens(a)
    ensures Canonical([a]) == [CanonicalWord(a)]
  {
    assert TokenName([a]);
  }

  lemma CanonicalTwo(a: string, b: string)
    requires AllTokens(a) && AllTokens(b)
    ensures Canonical([a, b]) == [CanonicalWord(a), CanonicalWord(b)]
  {
    assert TokenName([a, b]);
  }

  /** Three of the replayable names are canonical as written; "ETag" is not. */
  lemma CanonicalNames(k: nat)
    requires k < |REPLAYABLE|
    ensures Canonical(REPLAYABLE[k]) == if k == 2 then ["Etag"] else REPLAYABLE[k]
  {
    if k == 0 {
      ContentWord(); TypeWord(); CanonicalTwo("Content", "Type");
    } else if k == 1 {
      LocationWord(); CanonicalOne("Location");
    } else if k == 2 {
      ETagWord(); CanonicalOne("ETag");
    } else {
      CacheWord(); ControlWord(); CanonicalTwo("Cache", "Control");
    }
  }

  /** Canonical forms keep the length of each word, and the first words differ in length. */
  lemma NamesDiffer(i: nat, j: nat)
    requires i < |REPLAYABLE| && j < |REPLAYABLE| && i != j
    ensures Canonical(REPLAYABLE[i]) != Canonical(REPLAYABLE[j])
  {
    assert |REPLAYABLE[0][0]| == 7 && |REPLAYABLE[1][0]| == 8 && |REPLAYABLE[2][0]| == 4 && |REPLAYABLE[3][0]| == 5;
    assert |Canonical(REPLAYABLE[i])[0]| != |Canonical(REPLAYABLE[j])[0]|;
  }

  lemma SameCanonical(a: HeaderName, b: HeaderName)
    requires a in REPLAYABLE && b in REPLAYABLE && Canonical(a) == Canonical(b)
    ensures a == b
  {
    var i :| 0 <= i < |REPLAYABLE| && REPLAYABLE[i] == a;
    var j :| 0 <= j < |REPLAYABLE| && REPLAYABLE[j] == b;
    if i != j { NamesDiffer(i, j); }
  }

  // ---------------------------------------------------------------- keeping and applying headers

  /** `replayableHeaders`: the kept values, under the names as spelled in the list. */
  function Replayable(h: Headers): Headers {
    map name | name in REPLAYABLE && Values(h, name) != [] :: Values(h, name)
  }

  method ReplayableHeaders(h: Headers) returns (result: Headers)
    ensures result == Replayable(h)
  {
    result := KeepHeaders(h, REPLAYABLE);
  }

  method KeepHeaders(h: Headers, names: seq<HeaderName>) returns (result: Headers)
    ensures result == map name | name in names && Values(h, name) != [] :: Values(h, name)
  {
    result := map[];
    for i := 0 to |names|
      invariant result == map name | name in names[..i] && Values(h, name) != [] :: Values(h, name)
    {
      assert names[..i + 1] == names[..i] + [names[i]];
      var values := Values(h, names[i]);
      if |values| > 0 {
        result := result[names[i] := values];
      }
    }
    assert names[..|names|] == names;
  }

  /** The headers a first execution stores: replayable ones, cloned. */
  ghost predicate Stored(h: Headers, stored: Headers) { IsClone(Replayable(h), stored) }

  /** What the handler boundary and `Execute` do with the buffered headers, one after the other. */
  method StoreHeaders(h: Headers) returns (stored: Headers)
    ensures Stored(h, stored)
  {
    var kept := ReplayableHeaders(h);
    stored := CloneHeaders(kept);
  }

  lemma ReplayableIsDistinct(h: Headers, name: HeaderName)
    requires name in Replayable(h)
    ensures OnlyName(Canonical, Replayable(h), name)
  {
    forall other | other in Replayable(h) && Canonical(other) == Canonical(name) ensures other == name {
      SameCanonical(other, name);
    }
  }

  lemma StoredValues(h: Headers, stored: Headers, name: HeaderName)
    requires Stored(h, stored) && name in REPLAYABLE
    ensures Values(stored, name) == Values(h, name)
  {
    var kept := Replayable(h);
    if Values(h, name) != [] {
      assert name in kept;
      ReplayableIsDistinct(h, name);
    } else if Canonical(name) in stored {
      assert NameFrom(Canonical, kept, Canonical(name));
      var other :| other in kept && kept[other] != [] && Canonical(other) == Canonical(name);
      SameCanonical(other, name);
    }
  }

  function CanonicalReplayable(): set<HeaderName> { set name | name in REPLAYABLE :: Canonical(name) }

  /** What `applyReplayHeaders` does to the client's headers: the replayable ones are replaced. */
  ghost predicate IsApplied(before: Headers, source: Headers, after: Headers) {
    && (forall name :: name in REPLAYABLE ==> Values(after, name) == Values(source, name))
    && (forall c :: c !in CanonicalReplayable() ==>
          (c in after <==> c in before) && (c in before ==> after[c] == before[c]))
  }

  method ApplyReplayHeaders(before: Headers, source: Headers) returns (after: Headers)
    ensures IsApplied(before, source, after)
  {
    after := before;
    for i := 0 to |REPLAYABLE|
      invariant forall k :: 0 <= k < i ==> Values(after, REPLAYABLE[k]) == Values(source, REPLAYABLE[k])
      invariant forall c :: c !in CanonicalReplayable() ==>
        (c in after <==> c in before) && (c in before ==> after[c] == before[c])
    {
      var name := REPLAYABLE[i];
      assert Canonical(name) in CanonicalReplayable();
      OtherNames(i);
      ghost var was := after;
      after := ReplaceValues(after, name, Values(source, name));
    }
  }

  lemma OtherNames(i: nat)
    requires i < |REPLAYABLE|
    ensures forall k :: 0 <= k < |REPLAYABLE| && k != i ==> Canonical(REPLAYABLE[k]) != Canonical(REPLAYABLE[i])
  {
    forall k | 0 <= k < |REPLAYABLE| && k != i ensures Canonical(REPLAYABLE[k]) != Canonical(REPLAYABLE[i]) {
      NamesDiffer(k, i);
    }
  }

  /** Delete the header, then add the values one by one. */
  method ReplaceValues(h: Headers, name: HeaderName, values: seq<string>) returns (r: Headers)
    ensures Values(r, name) == values
    ensures forall c :: c != Canonical(name) ==> (c in r <==> c in h) && (c in h ==> r[c] == h[c])
  {
    r := h - {Canonical(name)};
    for j := 0 to |values|
      invariant Values(r, name) == values[..j]
      invariant forall c :: c != Canonical(name) ==> (c in r <==> c in h) && (c in h ==> r[c] == h[c])
    {
      assert values[..j + 1] == values[..j] + [values[j]];
      r := Add(r, name, values[j]);
    }
    assert values[..|values|] == values;
  }

  /** The client of the first execution and the client of a replay both receive, in each of the four
      replayable headers, exactly the values the handler set. */
  lemma ReplayDeliversHeaders(h: Headers, stored: Headers, before: Headers, after: Headers, name: HeaderName)
    requires Stored(h, stored) && IsApplied(before, stored, after) && name in REPLAYABLE
    ensures Values(after, name) == Values(h, name)
  {
    StoredValues(h, stored, name);
  }

  /** An error reply is sent without cloning, so a name that is not canonical as spelled is looked
      up under another key and lost: the ETag of a failed handler never arrives. */
  lemma ErrorPathHeaders(h: Headers, before: Headers, after: Headers, name: HeaderName)
    requires IsApplied(before, Replayable(h), after) && name in REPLAYABLE
    ensures Values(after, name) == if name == ETAG then [] else Values(h, name)
  {
    var k :| 0 <= k < |REPLAYABLE| && REPLAYABLE[k] == name;
    CanonicalNames(k);
    ETagIsElsewhere(k);
  }

  lemma ETagIsElsewhere(k: nat)
    requires k < |REPLAYABLE|
    ensures REPLAYABLE[k] == ETAG <==> k == 2
    ensures REPLAYABLE[k] != ["Etag"]
  {
    assert |REPLAYABLE[0][0]| == 7 && |REPLAYABLE[1][0]| == 8 && |REPLAYABLE[2][0]| == 4 && |REPLAYABLE[3][0]| == 5;
    assert |["Etag"][0]| == 4 && ["Etag"][0][1] == 't' && REPLAYABLE[2][0][1] == 'T';
  }

  // ---------------------------------------------------------------- the buffered writer

  datatype Call = WriteHeader(status: int) | WriteHeaderNow | Write(data: seq<nat>)

  /** The first call that fixes a status decides it; no such call means 200. */
  function FirstStatus(calls: seq<Call>): int {
    if calls == [] then 200
    else match calls[0]
         case WriteHeader(s) => if s != 0 then s else FirstStatus(calls[1..])
         case _ => 200
  }

  function AllBytes(calls: seq<Call>): seq<nat> {
    if calls == [] then []
    else (if calls[0].Write? then calls[0].data else []) + AllBytes(calls[1..])
  }

  class BufferedWriter {
    var body: seq<nat>
    var status: int
    var size: nat

    constructor ()
      ensures body == [] && status == 0 && size == 0
    {
      body, status, size := [], 0, 0;
    }

    method SetStatus(code: int)
      modifies this
      ensures status == (if old(status) == 0 then code else old(status)) && body == old(body) && size == old(size)
    {
      if status == 0 {
        status := code;
      }
    }

    method FixStatus()
      modifies this
      ensures status == (if old(status) == 0 then 200 else old(status)) && body == old(body) && size == old(size)
    {
      if status == 0 {
        status := 200;
      }
    }

    method Append(data: seq<nat>)
      modifies this
      ensures status == (if old(status) == 0 then 200 else old(status))
      ensures body == old(body) + data && size == old(size) + |data|
    {
      FixStatus();
      body := body + data;
      size := size + |data|;
    }

    function EffectiveStatus(): int
      reads this
    {
      if status == 0 then 200 else status
    }

    /** A whole handler run, whatever it calls: the reply is the first status and all the bytes. */
    method Serve(calls: seq<Call>)
      requires body == [] && status == 0 && size == 0
      modifies this
      ensures EffectiveStatus() == FirstStatus(calls) && body == AllBytes(calls) && size == |body|
    {
      for i := 0 to |calls|
        invariant body + AllBytes(calls[i..]) == AllBytes(calls) && size == |body|
        invariant (if status == 0 then FirstStatus(calls[i..]) else status) == FirstStatus(calls)
      {
        assert calls[i..][0] == calls[i] && calls[i..][1..] == calls[i + 1..];
        match calls[i]
        case WriteHeader(code) => SetStatus(code);
        case WriteHeaderNow => FixStatus();
        case Write(data) =>
          assert body + (data + AllBytes(calls[i + 1..])) == body + data + AllBytes(calls[i + 1..]);
          Append(data);
      }
      assert calls[|calls|..] == [];
      assert body + [] == body;
    }
  }

  // ---------------------------------------------------------------- the handler as business work

  /** The work function passed to `Execute`: statuses from 400 up become an error, any other reply is
      returned with the replayable headers, under the names as listed. */
  function HandlerOutcome(calls: seq<Call>, h: Headers): Outcome {
    if FirstStatus(calls) >= 400 then Failure
    else Returned(Reply(FirstStatus(calls), AllBytes(calls), Replayable(h), "", None))
  }

  /** A handler's reply passes the checks on the result exactly for a 2xx or 3xx status with a body within
      the limit; in every other case the transaction can only be rolled back. */
  lemma HandlerPassesIff(calls: seq<Call>, h: Headers, stored: Headers)
    ensures Judge(HandlerOutcome(calls, h), stored).Worked? <==>
              200 <= FirstStatus(calls) < 400 && |AllBytes(calls)| <= MAX_RESPONSE_BYTES
    ensures !Judge(HandlerOutcome(calls, h), stored).Worked? ==> Judge(HandlerOutcome(calls, h), stored).Failing?
  {
  }

  /** Its transaction can commit if and only if, besides, the body fits the column it is stored in, which
      holds one byte less than the limit allows. */
  lemma HandlerCommitsIff(s: State, t: nat, calls: seq<Call>, h: Headers, stored: Headers, effects: seq<Effect>,
                          callbacks: seq<Callback>)
    requires Reachable(s) && Enabled(s, Work(t, HandlerOutcome(calls, h), stored, effects, callbacks))
    ensures CanCommit(Step(s, Work(t, HandlerOutcome(calls, h), stored, effects, callbacks)), t) <==>
              200 <= FirstStatus(calls) < 400 && |AllBytes(calls)| <= BLOB_BYTES
  {
    var e := Work(t, HandlerOutcome(calls, h), stored, effects, callbacks);
    ReachableInv(s);
    StepKeepsInv(s, e);
    HandlerPassesIff(calls, h, stored);
    WorkCommitsIff(Step(s, e), t);
  }

  datatype Response = Response(status: int, body: seq<nat>, headers: Headers)

  /** What a client receives for a reply: its transaction's result, applied to its own headers. */
  ghost predicate Delivered(reply: Reply, before: Headers, r: Response) {
    r.status == reply.status && r.body == reply.body && IsApplied(before, reply.headers, r.headers)
  }

  /** A reply to the handler run: status, body and the values of all four replayable headers. */
  ghost predicate Answers(r: Response, calls: seq<Call>, h: Headers) {
    && r.status == FirstStatus(calls) && r.body == AllBytes(calls)
    && forall name :: name in REPLAYABLE ==> Values(r.headers, name) == Values(h, name)
  }

  lemma WorkedReplyAnswers(calls: seq<Call>, h: Headers, stored: Headers, reply: Reply, before: Headers, r: Response)
    requires IsClone(Replayable(h), stored) && Judge(HandlerOutcome(calls, h), stored) == Worked(reply)
    requires Delivered(reply, before, r)
    ensures Answers(r, calls, h)
  {
    forall name | name in REPLAYABLE ensures Values(r.headers, name) == Values(h, name) {
      ReplayDeliversHeaders(h, stored, before, r.headers, name);
    }
  }

  /** Whatever the work was: in every run, any two clients answered for the same scope receive the same
      status, body and replayable headers. */
  lemma ReplayedResponseIsTheSame(s: State, t: nat, u: nat, b1: Headers, r1: Response, b2: Headers, r2: Response,
                                  name: HeaderName)
    requires Reachable(s) && t in s.txs && u in s.txs && s.txs[t].scope == s.txs[u].scope
    requires s.txs[t].phase.Committed? && s.txs[u].phase.Committed? && name in REPLAYABLE
    requires Delivered(s.txs[t].phase.reply, b1, r1) && Delivered(s.txs[u].phase.reply, b2, r2)
    ensures r1.status == r2.status && r1.body == r2.body && Values(r1.headers, name) == Values(r2.headers, name)
  {
    RepliesAgree(s, t, u);
  }

  /** End to end, over every run: let the work of a transaction be the run of a handler that makes
      `calls` and sets the headers `h`.  If that transaction commits, then every client answered for
      its scope, the first as well as any replay at any time, receives the handler's status, body and
      replayable headers. */
  lemma EveryClientGetsTheReply(s: State, t: nat, calls: seq<Call>, h: Headers, stored: Headers, effects: seq<Effect>,
                                callbacks: seq<Callback>, es: seq<Event>, u: nat, before: Headers, r: Response)
    requires Reachable(s) && Enabled(s, Work(t, HandlerOutcome(calls, h), stored, effects, callbacks))
    requires Run(Step(s, Work(t, HandlerOutcome(calls, h), stored, effects, callbacks)), es).Some?
    requires var end := Run(Step(s, Work(t, HandlerOutcome(calls, h), stored, effects, callbacks)), es).value;
      && t in end.txs && u in end.txs && end.txs[u].scope == end.txs[t].scope
      && end.txs[t].phase.Committed? && end.txs[u].phase.Committed? && Delivered(end.txs[u].phase.reply, before, r)
    ensures Answers(r, calls, h)
  {
    var e := Work(t, HandlerOutcome(calls, h), stored, effects, callbacks);
    var s1 := Step(s, e);
    var end := Run(s1, es).value;
    ReachableStep(s, e);
    ReachableRun(s1, es);
    RepliesAgree(end, t, u);
    if s1.txs[t].phase.Worked? {
      WorkedIsKept(s1, t, es);
      WorkedReplyAnswers(calls, h, stored, s1.txs[t].phase.reply, before, r);
    } else {
      DoomedNeverCommits(s1, t, es);
    }
  }

  // ---------------------------------------------------------------- after-commit callbacks

  /** The process as far as callbacks change it: those that have been executed, in order. */
  class Effects {
    var log: seq<Callback>
    constructor ()
      ensures log == []
    {
      log := [];
    }
  }

  class AfterCommit {
    var callbacks: seq<Callback>
    var ran: bool

    constructor ()
      ensures callbacks == [] && !ran
    {
      callbacks, ran := [], false;
    }

    /** Registration, refused once the callbacks have run. */
    method Register(callback: Callback) returns (ok: bool)
      modifies this
      ensures ok == !old(ran) && ran == old(ran)
      ensures callbacks == if ok then old(callbacks) + [callback] else old(callbacks)
    {
      if ran {
        return false;
      }
      callbacks := callbacks + [callback];
      ok := true;
    }

    /** `Run`: everything registered is executed once, in registration order, even when some fail;
        a second call executes nothing. */
    method Run(world: Effects, fails: Callback -> bool) returns (failed: seq<Callback>)
      requires world as object != this
      modifies this, world
      ensures ran && callbacks == (if old(ran) then old(callbacks) else [])
      ensures world.log == old(world.log) + (if old(ran) then [] else old(callbacks))
      ensures failed == Failures(if old(ran) then [] else old(callbacks), fails)
    {
      failed := [];
      if ran {
        return;
      }
      ran := true;
      var pending := callbacks;
      callbacks := [];
      for i := 0 to |pending|
        invariant ran && callbacks == [] && pending == old(callbacks)
        invariant world.log == old(world.log) + pending[..i]
        invariant failed == Failures(pending[..i], fails)
      {
        assert pending[..i + 1][..i] == pending[..i];
        assert pending[..i + 1] == pending[..i] + [pending[i]];
        world.log := world.log + [pending[i]];
        if fails(pending[i]) {
          failed := failed + [pending[i]];
        }
      }
      assert pending[..|pending|] == pending;
    }
  }

  function Failures(cs: seq<Callback>, fails: Callback -> bool): seq<Callback> {
    if cs == [] then []
    else Failures(cs[..|cs| - 1], fails) + (if fails(cs[|cs| - 1]) then [cs[|cs| - 1]] else [])
  }

  /** `DeferAfterCommit`: registered inside a transaction boundary, executed at once outside. */
  method DeferAfterCommit(registry: AfterCommit?, world: Effects, callback: Option<Callback>, fails: Callback -> bool)
    returns (ok: bool)
    requires registry != null ==> world as object != registry
    modifies registry, world
    ensures callback.None? ==> ok && unchanged(world) && (registry != null ==> unchanged(registry))
    ensures callback.Some? && registry == null ==>
              ok == !fails(callback.value) && world.log == old(world.log) + [callback.value]
    ensures callback.Some? && registry != null ==>
              && ok == !old(registry.ran) && unchanged(world) && registry.ran == old(registry.ran)
              && registry.callbacks == if ok then old(registry.callbacks) + [callback.value]
                 else old(registry.callbacks)
  {
    if callback.None? {
      return true;
    }
    if registry == null {
      world.log := world.log + [callback.value];
      return !fails(callback.value);
    }
    ok := registry.Register(callback.value);
  }
}
