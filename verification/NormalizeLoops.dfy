/** The loops of `normalizeAPIOperations` and its helpers, which rewrite values where they stand and
    stop at the first one they refuse. */
module NormalizeLoops {
  import opened Options
  import opened SchemaTypes
  import opened Ordering
  import opened Text
  import opened Uniques
  import opened Normalizers
  import opened NormalOperations
  import opened Normalize

  // ---------------------------------------------------------------- normalise in place, refuse repeats

  ghost predicate KeysDistinct<T, K>(key: T -> K, xs: seq<T>) {
    forall i, j :: 0 <= i < j < |xs| ==> key(xs[i]) != key(xs[j])
  }

  /** Two loops over the same elements agree as far as both have come. */
  ghost predicate Partly<T(!new)>(f: T -> Option<T>, before: seq<T>, done: seq<T>) {
    |done| <= |before| && forall j :: 0 <= j < |done| ==> f(before[j]) == Some(done[j])
  }

  lemma PartlyRepeats<T(!new), K>(f: T -> Option<T>, key: T -> K, before: seq<T>, done: seq<T>, k: nat)
    requires Partly(f, before, done) && k < |done| - 1 && key(done[k]) == key(done[|done| - 1])
    ensures NormAll(f, before).None? || !KeysDistinct(key, NormAll(f, before).value)
  {
    NormAllEach(f, before);
  }

  lemma PartlyAll<T(!new)>(f: T -> Option<T>, before: seq<T>, done: seq<T>)
    requires Partly(f, before, done) && |done| == |before|
    ensures NormAll(f, before) == Some(done)
  {
    NormAllEach(f, before);
    assert NormAll(f, before).value == done;
  }

  lemma PartlyRefused<T(!new)>(f: T -> Option<T>, before: seq<T>, i: nat)
    requires i < |before| && f(before[i]).None?
    ensures NormAll(f, before).None?
  {
    NormAllEach(f, before);
  }

  ghost function Keys<T, K>(key: T -> K, xs: seq<T>): set<K> { set x | x in xs :: key(x) }

  lemma KeysSnoc<T, K>(key: T -> K, xs: seq<T>, x: T)
    ensures Keys(key, xs + [x]) == Keys(key, xs) + {key(x)}
    ensures KeysDistinct(key, xs) && key(x) !in Keys(key, xs) ==> KeysDistinct(key, xs + [x])
  {
    var all := xs + [x];
    forall k | k in Keys(key, xs) + {key(x)} ensures k in Keys(key, all) {
      if k in Keys(key, xs) {
        var y :| y in xs && key(y) == k;
        assert y in all;
      } else {
        assert x in all;
      }
    }
    if KeysDistinct(key, xs) && key(x) !in Keys(key, xs) {
      forall i, j | 0 <= i < j < |all| ensures key(all[i]) != key(all[j]) {
        if j == |xs| { assert xs[i] in xs; }
      }
    }
  }

  /** The shape shared by the loops over operations, headers, query parameters and enumerated values:
      each element is normalised where it stands, and a key seen before ends the loop.  Operations
      have two keys, their identifier and their route. */
  method NormalizeEach<T(!new), K(==), L(==)>(f: T -> Option<T>, key: T -> K, route: T -> L, a: array<T>)
    returns (ok: bool)
    modifies a
    ensures ok == (NormAll(f, old(a[..])).Some?
                   && KeysDistinct(key, NormAll(f, old(a[..])).value)
                      && KeysDistinct(route, NormAll(f, old(a[..])).value))
    ensures ok ==> a[..] == NormAll(f, old(a[..])).value
  {
    ghost var before := old(a[..]);
    var seen: set<K> := {};
    var seenRoutes: set<L> := {};
    for i := 0 to a.Length
      invariant a[i..] == before[i..]
      invariant Partly(f, before, a[..i])
      invariant seen == Keys(key, a[..i]) && KeysDistinct(key, a[..i])
      invariant seenRoutes == Keys(route, a[..i]) && KeysDistinct(route, a[..i])
    {
      assert a[i] == a[i..][0] == before[i];
      var next := f(a[i]);
      if next.None? {
        PartlyRefused(f, before, i);
        return false;
      }
      ghost var done := a[..i] + [next.value];
      if key(next.value) in seen {
        SeenRepeats(f, key, before, a[..i], next.value);
        return false;
      }
      if route(next.value) in seenRoutes {
        SeenRepeats(f, route, before, a[..i], next.value);
        return false;
      }
      KeysSnoc(key, a[..i], next.value);
      KeysSnoc(route, a[..i], next.value);
      seen := seen + {key(next.value)};
      seenRoutes := seenRoutes + {route(next.value)};
      assert before[i..][1..] == before[i + 1..];
      a[i] := next.value;
      assert a[..i + 1] == done;
    }
    assert a[..] == a[..a.Length];
    PartlyAll(f, before, a[..]);
    ok := true;
  }

  lemma SeenRepeats<T(!new), K>(f: T -> Option<T>, key: T -> K, before: seq<T>, done: seq<T>, x: T)
    requires Partly(f, before, done) && |done| < |before| && f(before[|done|]) == Some(x) && key(x) in Keys(key, done)
    ensures NormAll(f, before).None? || !KeysDistinct(key, NormAll(f, before).value)
  {
    var y :| y in done && key(y) == key(x);
    var k :| 0 <= k < |done| && done[k] == y;
    PartlyRepeats(f, key, before, done + [x], k);
  }

  /** The headers of one operation: names must differ even after lower-casing. */
  method NormalizeHeaders(headers: array<APIParameter>) returns (ok: bool)
    modifies headers
    ensures ok == (NormAll(NormHeader, old(headers[..])).Some?
        && NoRepeats(LowerNames(NormAll(NormHeader, old(headers[..])).value)))
    ensures ok ==> headers[..] == NormAll(NormHeader, old(headers[..])).value
  {
    ok := NormalizeEach(NormHeader, LowerName, LowerName, headers);
    ghost var all := NormAll(NormHeader, old(headers[..]));
    if all.Some? { LowerNamesAreKeys(all.value); }
  }

  function OperationKey(op: APIOperation): string { op.operationId }
  function RouteKey(op: APIOperation): (string, string) { (op.method_, op.path) }

  lemma RoutesAreKeys(ops: seq<APIOperation>)
    ensures DistinctRoutes(ops) <==> KeysDistinct(OperationKey, ops) && KeysDistinct(RouteKey, ops)
  {
    if DistinctRoutes(ops) {
      forall i, j | 0 <= i < j < |ops| ensures OperationKey(ops[i]) != OperationKey(ops[j])
          && RouteKey(ops[i]) != RouteKey(ops[j]) {}
    } else {
      var i, j :| 0 <= i < j < |ops|
          && !(ops[i].operationId != ops[j].operationId
             && (ops[i].method_ != ops[j].method_ || ops[i].path != ops[j].path));
      assert OperationKey(ops[i]) == OperationKey(ops[j]) || RouteKey(ops[i]) == RouteKey(ops[j]);
    }
  }

  /** All operations of a schema, before they are sorted. */
  method NormalizeOperationList(ops: array<APIOperation>, responses: set<string>) returns (ok: bool)
    modifies ops
    ensures ok == NormOperations(responses, old(ops[..])).Some?
    ensures ok ==> NormOperations(responses, old(ops[..])).value == Sort(RouteLe, ops[..])
  {
    var f := (op: APIOperation) => NormOperation(responses, op);
    ok := NormalizeEach(f, OperationKey, RouteKey, ops);
    SameNormaliser(responses, f, old(ops[..]));
    ghost var all := NormAll(f, old(ops[..]));
    if all.Some? { RoutesAreKeys(all.value); }
  }

  lemma {:induction false} SameNormaliser(responses: set<string>, f: APIOperation -> Option<APIOperation>,
      ops: seq<APIOperation>)
    requires forall op :: f(op) == NormOperation(responses, op)
    ensures NormAll(f, ops) == NormAll(op => NormOperation(responses, op), ops)
  {
    if ops != [] { SameNormaliser(responses, f, ops[1..]); }
  }

  function TrimmedValue(v: string): Option<string> { if Trim(v) == "" then None else Some(Trim(v)) }
  function Itself(v: string): string { v }

  lemma {:induction false} TrimmedValues(xs: seq<string>)
    ensures NormAll(TrimmedValue, xs).Some? <==> "" !in Trims(xs)
    ensures NormAll(TrimmedValue, xs).Some? ==> NormAll(TrimmedValue, xs).value == Trims(xs)
  {
    NormAllEach(TrimmedValue, xs);
    if "" !in Trims(xs) {
      forall i | 0 <= i < |xs| ensures TrimmedValue(xs[i]).Some? { assert Trims(xs)[i] in Trims(xs); }
    }
  }

  /** Enumerated values are trimmed in place; none may be empty or repeated. */
  method TrimEnum(values: array<string>) returns (ok: bool)
    modifies values
    ensures ok == (NoRepeats(Trims(old(values[..]))) && "" !in Trims(old(values[..])))
    ensures ok ==> values[..] == Trims(old(values[..]))
  {
    ok := NormalizeEach(TrimmedValue, Itself, Itself, values);
    TrimmedValues(old(values[..]));
    assert NoRepeats(Trims(old(values[..]))) <==> KeysDistinct(Itself, Trims(old(values[..])));
  }

  function LowerName(p: APIParameter): string { ToLower(p.name) }

  lemma LowerNamesAreKeys(hs: seq<APIParameter>)
    ensures NoRepeats(LowerNames(hs)) <==> KeysDistinct(LowerName, hs)
  {
    assert forall i :: 0 <= i < |hs| ==> LowerNames(hs)[i] == LowerName(hs[i]);
  }

  /** `normalizeIdempotency`: the first header that matches the key, or a new one at the end. */
  method NormalizeIdempotency(mode: string, headers: seq<APIParameter>) returns (r: Option<seq<APIParameter>>)
    ensures r == IdempotencyHeaders(mode, headers)
  {
    if mode == "required" {
      for i := 0 to |headers|
        invariant forall j :: 0 <= j < i ==> !EqualFold(headers[j].name, KEY)
      {
        if EqualFold(headers[i].name, KEY) {
          assert FirstKey(headers) == i;
          if !headers[i].required || LowerTrim(headers[i].kind) != "string" {
            return None;
          }
          return Some(headers[i := headers[i].(name := KEY, maxLength := Some(128))]);
        }
      }
      return Some(headers + [APIParameter(KEY, "string", true, "", [], None, None, Some(128))]);
    }
    if mode != "inherent" && mode != "none" {
      return None;
    }
    for i := 0 to |headers|
      invariant forall j :: 0 <= j < i ==> !(headers[j].required && EqualFold(headers[j].name, KEY))
    {
      if EqualFold(headers[i].name, KEY) && headers[i].required {
        return None;
      }
    }
    return Some(headers);
  }
}
