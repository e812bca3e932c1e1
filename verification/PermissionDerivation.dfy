/** `permissionsFromOperations`: operations that share permission name, path and role set are
    gathered into one permission.  The grouping map is iterated in an arbitrary order, so that the
    result does not depend on that order is part of what is proved. */
module PermissionDerivation {
  import opened Text
  import opened Ordering
  import opened Uniques
  import opened SchemaTypes
  import opened ApiPaths

  const NUL: char := '\0'

  /** What an operation's permission is identified by. */
  datatype Triple = Triple(name: string, path: string, roles: seq<string>)

  /** An operation as the derivation sees it. */
  datatype Item = Item(id: Triple, method_: string)

  function TripleOf(op: APIOperation): Triple {
    Triple(op.permission, ToCasbin(op.path), Unique(op.defaultRoles))
  }

  function ItemsOf(ops: seq<APIOperation>): (r: seq<Item>)
    ensures |r| == |ops| && forall i :: 0 <= i < |r| ==> r[i] == Item(TripleOf(ops[i]), ops[i].method_)
  {
    seq(|ops|, i requires 0 <= i < |ops| => Item(TripleOf(ops[i]), ops[i].method_))
  }

  function IdentityOf(p: Permission): Triple { Triple(p.name, p.path, p.roles) }

  function KeyOf(t: Triple): string { t.name + [NUL] + t.path + [NUL] + Join(t.roles, NUL) }

  /** No component holds the character that separates components in the grouping key, and the role
      list is one that `uniqueStrings` produced. */
  ghost predicate Separable(t: Triple) {
    && NUL !in t.name && NUL !in t.path
    && (forall i :: 0 <= i < |t.roles| ==> NUL !in t.roles[i] && t.roles[i] != "")
    && Unique(t.roles) == t.roles
  }

  ghost predicate AllSeparable(items: seq<Item>) { forall k :: 0 <= k < |items| ==> Separable(items[k].id) }

  lemma SplitKey(t: Triple)
    requires Separable(t)
    ensures Split(KeyOf(t), NUL) == [t.name, t.path] + (if t.roles == [] then [""] else t.roles)
  {
    var last := if t.roles == [] then [""] else t.roles;
    var parts := [t.name, t.path] + last;
    JoinTwo(t.name, t.path, last);
    assert Join(last, NUL) == Join(t.roles, NUL);
    SplitOfJoin(parts, NUL);
  }

  lemma JoinTwo(a: string, b: string, rest: seq<string>)
    requires rest != []
    ensures Join([a, b] + rest, NUL) == a + [NUL] + b + [NUL] + Join(rest, NUL)
  {
    var parts := [a, b] + rest;
    assert parts[1..] == [b] + rest && parts[1..][1..] == rest;
    assert Join(parts[1..], NUL) == b + [NUL] + Join(rest, NUL);
    assert a + [NUL] + (b + [NUL] + Join(rest, NUL)) == a + [NUL] + b + [NUL] + Join(rest, NUL);
  }

  /** Different permissions never share a grouping key. */
  lemma KeyInjective(a: Triple, b: Triple)
    requires Separable(a) && Separable(b) && KeyOf(a) == KeyOf(b)
    ensures a == b
  {
    SplitKey(a);
    SplitKey(b);
    var x, y := Split(KeyOf(a), NUL), Split(KeyOf(b), NUL);
    assert x[0] == a.name && x[1] == a.path && x[2..] == if a.roles == [] then [""] else a.roles;
    assert y[0] == b.name && y[1] == b.path && y[2..] == if b.roles == [] then [""] else b.roles;
    assert [""][0] == "";
  }

  // ---------------------------------------------------------------- the specification

  /** Methods of the operations that belong to `t`, in order. */
  function MethodsOf(items: seq<Item>, t: Triple): seq<string> {
    if items == [] then []
    else MethodsOf(items[..|items| - 1], t)
         + (if items[|items| - 1].id == t then [items[|items| - 1].method_] else [])
  }

  /** Identities in order of first appearance. */
  function Triples(items: seq<Item>): seq<Triple> {
    if items == [] then []
    else var front, t := Triples(items[..|items| - 1]), items[|items| - 1].id;
         if t in front then front else front + [t]
  }

  function PermissionFor(items: seq<Item>, t: Triple): Permission {
    Permission(t.name, t.path, Sort(StrLe, MethodsOf(items, t)), t.roles)
  }

  function PermissionsFor(items: seq<Item>, ts: seq<Triple>): (r: seq<Permission>)
    ensures |r| == |ts| && forall i :: 0 <= i < |ts| ==> r[i] == PermissionFor(items, ts[i])
  {
    seq(|ts|, i requires 0 <= i < |ts| => PermissionFor(items, ts[i]))
  }

  /** The comparison `sort.Slice` is given: by name, then path, then joined roles. */
  predicate PermissionLe(a: Permission, b: Permission) {
    if a.name != b.name then StrLe(a.name, b.name)
    else if a.path != b.path then StrLe(a.path, b.path)
    else StrLe(Join(a.roles, NUL), Join(b.roles, NUL))
  }

  function DerivedFrom(items: seq<Item>): seq<Permission> {
    Sort(PermissionLe, PermissionsFor(items, Triples(items)))
  }

  function Derived(ops: seq<APIOperation>): seq<Permission> { DerivedFrom(ItemsOf(ops)) }

  lemma PermissionLePreOrder()
    ensures PreOrder(PermissionLe)
  {
    forall x, y ensures PermissionLe(x, y) || PermissionLe(y, x) {
      StrLeTotal(x.name, y.name);
      StrLeTotal(x.path, y.path);
      StrLeTotal(Join(x.roles, NUL), Join(y.roles, NUL));
    }
    forall x, y, z | PermissionLe(x, y) && PermissionLe(y, z) ensures PermissionLe(x, z) {
      PermissionLeTransitive(x, y, z);
    }
  }

  lemma PermissionLeTransitive(x: Permission, y: Permission, z: Permission)
    requires PermissionLe(x, y) && PermissionLe(y, z)
    ensures PermissionLe(x, z)
  {
    if StrLe(x.name, y.name) && StrLe(y.name, z.name) { StrLeTransitive(x.name, y.name, z.name); }
    if StrLe(x.path, y.path) && StrLe(y.path, z.path) { StrLeTransitive(x.path, y.path, z.path); }
    var a, b, c := Join(x.roles, NUL), Join(y.roles, NUL), Join(z.roles, NUL);
    if StrLe(a, b) && StrLe(b, c) { StrLeTransitive(a, b, c); }
    StrLeTotal(x.name, y.name);
    StrLeTotal(x.path, y.path);
    StrLeTotal(y.name, z.name);
    StrLeTotal(y.path, z.path);
  }

  // ---------------------------------------------------------------- facts about the grouping

  ghost predicate Occurs(items: seq<Item>, t: Triple) {
    exists k :: 0 <= k < |items| && items[k].id == t
  }

  lemma {:induction false} TriplesMembers(items: seq<Item>, t: Triple)
    ensures t in Triples(items) <==> Occurs(items, t)
  {
    if items != [] {
      var front, last := items[..|items| - 1], |items| - 1;
      TriplesMembers(front, t);
      if Occurs(front, t) {
        var k :| 0 <= k < |front| && front[k].id == t;
        assert items[k].id == t;
      }
      if Occurs(items, t) && items[last].id != t {
        var k :| 0 <= k < |items| && items[k].id == t;
        assert front[k].id == t;
      }
    }
  }

  ghost predicate AllDifferent<T>(s: seq<T>) { forall i, j :: 0 <= i < j < |s| ==> s[i] != s[j] }

  lemma {:induction false} TriplesDifferent(items: seq<Item>)
    ensures AllDifferent(Triples(items))
  {
    if items != [] { TriplesDifferent(items[..|items| - 1]); }
  }

  lemma {:induction false} MethodsMember(items: seq<Item>, t: Triple, m: string)
    ensures m in MethodsOf(items, t) <==> Item(t, m) in items
  {
    if items != [] {
      var front, last := items[..|items| - 1], items[|items| - 1];
      MethodsMember(front, t, m);
      assert items == front + [last];
    }
  }

  // ---------------------------------------------------------------- shape of the result

  ghost predicate DerivedShape(items: seq<Item>, ps: seq<Permission>) {
    && SortedBy(PermissionLe, ps)
    && (forall i, j :: 0 <= i < j < |ps| ==> IdentityOf(ps[i]) != IdentityOf(ps[j]))
    && (forall p :: p in ps <==> IsPermissionOf(items, p))
  }

  ghost predicate IsPermissionOf(items: seq<Item>, p: Permission) {
    Occurs(items, IdentityOf(p)) && p == PermissionFor(items, IdentityOf(p))
  }

  lemma DerivedHasShape(items: seq<Item>)
    ensures DerivedShape(items, DerivedFrom(items))
  {
    var ts := Triples(items);
    var ps := PermissionsFor(items, ts);
    PermissionLePreOrder();
    SortIsSorted(PermissionLe, ps);
    SortIsPermutation(PermissionLe, ps);
    TriplesDifferent(items);
    assert forall i :: 0 <= i < |ts| ==> IdentityOf(ps[i]) == ts[i];
    DifferentIdentities(ps, DerivedFrom(items));
    MembersOfMultiset(ps, DerivedFrom(items));
    forall p ensures p in ps <==> IsPermissionOf(items, p) { PermissionsMember(items, p); }
  }

  lemma PermissionsMember(items: seq<Item>, p: Permission)
    ensures p in PermissionsFor(items, Triples(items)) <==> IsPermissionOf(items, p)
  {
    var ts := Triples(items);
    var ps := PermissionsFor(items, ts);
    if p in ps {
      var i :| 0 <= i < |ts| && ps[i] == p;
      TriplesMembers(items, ts[i]);
    }
    if IsPermissionOf(items, p) {
      TriplesMembers(items, IdentityOf(p));
      var i :| 0 <= i < |ts| && ts[i] == IdentityOf(p);
      assert ps[i] == p;
    }
  }

  lemma DifferentIdentities(a: seq<Permission>, b: seq<Permission>)
    requires multiset(a) == multiset(b)
    requires forall i, j :: 0 <= i < j < |a| ==> IdentityOf(a[i]) != IdentityOf(a[j])
    ensures forall i, j :: 0 <= i < j < |b| ==> IdentityOf(b[i]) != IdentityOf(b[j])
  {
    MembersOfMultiset(a, b);
    forall i, j | 0 <= i < j < |b| ensures IdentityOf(b[i]) != IdentityOf(b[j]) {
      assert b[i] in b && b[j] in b;
      var k :| 0 <= k < |a| && a[k] == b[i];
      var l :| 0 <= l < |a| && a[l] == b[j];
      OnceInSequence(a, k);
      if b[i] == b[j] {
        TwiceInSequence(b, i, j);
      }
    }
  }

  /** The shape leaves one possibility: two derivations of the same operations are equal. */
  lemma DerivedShapeIsUnique(items: seq<Item>, a: seq<Permission>, b: seq<Permission>)
    requires AllSeparable(items) && DerivedShape(items, a) && DerivedShape(items, b)
    ensures a == b
  {
    forall p ensures multiset(a)[p] == multiset(b)[p] { SameCount(items, a, b, p); }
    assert multiset(a) == multiset(b);
    forall x, y | x in a && y in a && PermissionLe(x, y) && PermissionLe(y, x) ensures x == y {
      PermissionLeAntisymmetric(items, x, y);
    }
    SortedPermutationIsUnique(PermissionLe, a, b);
  }

  lemma SameCount(items: seq<Item>, a: seq<Permission>, b: seq<Permission>, p: Permission)
    requires DerivedShape(items, a) && DerivedShape(items, b)
    ensures multiset(a)[p] == multiset(b)[p]
  {
    assert p in a <==> p in b;
    if p in a {
      var i :| 0 <= i < |a| && a[i] == p;
      var j :| 0 <= j < |b| && b[j] == p;
      OnceInSequence(a, i);
      OnceInSequence(b, j);
    }
  }

  lemma PermissionLeAntisymmetric(items: seq<Item>, x: Permission, y: Permission)
    requires AllSeparable(items) && IsPermissionOf(items, x) && IsPermissionOf(items, y)
    requires PermissionLe(x, y) && PermissionLe(y, x)
    ensures x == y
  {
    StrLeTotal(x.name, y.name);
    StrLeTotal(x.path, y.path);
    StrLeTotal(Join(x.roles, NUL), Join(y.roles, NUL));
    assert Separable(IdentityOf(x)) && Separable(IdentityOf(y));
    JoinInjective(x.roles, y.roles, NUL);
  }

  // ---------------------------------------------------------------- conservation

  /** What `normalizeAPIOperations` establishes of the operations, as far as it matters here. */
  ghost predicate NormalizedOperations(ops: seq<APIOperation>) {
    && (forall k :: 0 <= k < |ops| ==> ValidOperationPath(ops[k].path) && Separable(TripleOf(ops[k])))
    && (forall i, j :: 0 <= i < j < |ops| ==> ops[i].method_ != ops[j].method_ || ops[i].path != ops[j].path)
  }

  /** Distinct routes are distinct items, because the path translation is injective. */
  lemma DistinctRoutes(ops: seq<APIOperation>)
    requires NormalizedOperations(ops)
    ensures AllDifferent(ItemsOf(ops)) && AllSeparable(ItemsOf(ops))
  {
    var items := ItemsOf(ops);
    forall i, j | 0 <= i < j < |items| ensures items[i] != items[j] {
      if items[i] == items[j] { TranslationIsInjective(ops[i].path, ops[j].path); }
    }
  }

  lemma {:induction false} MethodsNoRepeats(items: seq<Item>, t: Triple)
    requires AllDifferent(items)
    ensures NoRepeats(MethodsOf(items, t))
  {
    if items != [] {
      var front, last := items[..|items| - 1], items[|items| - 1];
      MethodsNoRepeats(front, t);
      MethodsMember(front, t, last.method_);
    }
  }

  lemma CoveredOnce(items: seq<Item>, k: nat)
    requires AllDifferent(items) && k < |items|
    ensures var p := PermissionFor(items, items[k].id);
            multiset(p.methods)[items[k].method_] == 1 && Increasing(p.methods)
  {
    var t := items[k].id;
    var ms := MethodsOf(items, t);
    MethodsNoRepeats(items, t);
    MethodsMember(items, t, items[k].method_);
    StrLePreOrder();
    SortIsPermutation(StrLe, ms);
    SortIsSorted(StrLe, ms);
    NoRepeatsPermutation(ms, Sort(StrLe, ms));
    NoRepeatsCount(ms, items[k].method_);
  }

  lemma ListedMethod(items: seq<Item>, p: Permission, m: string)
    requires IsPermissionOf(items, p) && m in p.methods
    ensures Item(IdentityOf(p), m) in items
  {
    var ms := MethodsOf(items, IdentityOf(p));
    SortIsPermutation(StrLe, ms);
    MembersOfMultiset(ms, Sort(StrLe, ms));
    MethodsMember(items, IdentityOf(p), m);
  }

  /** `p` is the permission of `op`. */
  ghost predicate Covers(p: Permission, op: APIOperation) { IdentityOf(p) == TripleOf(op) }

  /** Conservation: every operation is covered by a permission, which lists its method exactly
      once ... */
  lemma OperationIsCovered(ops: seq<APIOperation>, k: nat)
    requires NormalizedOperations(ops) && k < |ops|
    ensures exists i :: 0 <= i < |Derived(ops)| && Covers(Derived(ops)[i], ops[k])
              && multiset(Derived(ops)[i].methods)[ops[k].method_] == 1
  {
    var items := ItemsOf(ops);
    DistinctRoutes(ops);
    DerivedHasShape(items);
    CoveredOnce(items, k);
    var p := PermissionFor(items, items[k].id);
    assert IsPermissionOf(items, p);
    var i :| 0 <= i < |Derived(ops)| && Derived(ops)[i] == p;
  }

  /** ... by exactly one, since no two permissions have the same identity ... */
  lemma PermissionsDiffer(ops: seq<APIOperation>, i: nat, j: nat)
    requires i < j < |Derived(ops)|
    ensures IdentityOf(Derived(ops)[i]) != IdentityOf(Derived(ops)[j])
  {
    DerivedHasShape(ItemsOf(ops));
  }

  /** ... and nothing else is emitted: each listed method is that of an operation it covers, and
      methods are listed in increasing order without repeats. */
  lemma NothingExtra(ops: seq<APIOperation>, i: nat)
    requires NormalizedOperations(ops) && i < |Derived(ops)|
    ensures Derived(ops)[i].methods != [] && Increasing(Derived(ops)[i].methods)
    ensures forall m :: m in Derived(ops)[i].methods ==>
              exists k :: 0 <= k < |ops| && Covers(Derived(ops)[i], ops[k]) && ops[k].method_ == m
  {
    var items, p := ItemsOf(ops), Derived(ops)[i];
    DistinctRoutes(ops);
    DerivedHasShape(items);
    assert p in Derived(ops);
    assert IsPermissionOf(items, p);
    var k :| 0 <= k < |items| && items[k].id == IdentityOf(p);
    CoveredOnce(items, k);
    forall m | m in p.methods ensures exists k :: 0 <= k < |ops| && Covers(p, ops[k]) && ops[k].method_ == m {
      ListedMethod(items, p, m);
      var l :| 0 <= l < |items| && items[l] == Item(IdentityOf(p), m);
    }
  }

  // ---------------------------------------------------------------- the procedure

  function Group(items: seq<Item>, t: Triple): Permission {
    Permission(t.name, t.path, MethodsOf(items, t), t.roles)
  }

  ghost predicate Groups(items: seq<Item>, byKey: map<string, Permission>) {
    && (forall key {:trigger FromItem(items, byKey, key)} :: key in byKey ==> FromItem(items, byKey, key))
    && (forall k :: 0 <= k < |items| ==>
          KeyOf(items[k].id) in byKey && byKey[KeyOf(items[k].id)] == Group(items, items[k].id))
  }

  ghost predicate FromItem(items: seq<Item>, byKey: map<string, Permission>, key: string) {
    exists k :: 0 <= k < |items| && key == KeyOf(items[k].id)
  }

  /** The first loop: one pass over the operations, appending methods under the grouping key. */
  method GroupOperations(ops: seq<APIOperation>) returns (byKey: map<string, Permission>)
    requires AllSeparable(ItemsOf(ops))
    ensures Groups(ItemsOf(ops), byKey)
  {
    ghost var items := ItemsOf(ops);
    byKey := map[];
    for i := 0 to |ops|
      invariant Groups(items[..i], byKey)
    {
      var path := ToCasbin(ops[i].path);
      var roles := UniqueStrings(ops[i].defaultRoles);
      var t := Triple(ops[i].permission, path, roles);
      assert items[i] == Item(t, ops[i].method_);
      ghost var before := byKey;
      byKey := AddMethod(byKey, t, ops[i].method_);
      GroupsExtend(items, i, before, byKey);
    }
    assert items[..|ops|] == items;
  }

  /** Look the permission up under its key, create it if missing, append the method. */
  function AddMethod(byKey: map<string, Permission>, t: Triple, m: string): map<string, Permission> {
    var key := KeyOf(t);
    var p := if key in byKey then byKey[key] else Permission(t.name, t.path, [], t.roles);
    byKey[key := p.(methods := p.methods + [m])]
  }

  lemma GroupFound(items: seq<Item>, byKey: map<string, Permission>, t: Triple)
    requires AllSeparable(items) && Separable(t) && Groups(items, byKey)
    ensures KeyOf(t) in byKey ==> byKey[KeyOf(t)] == Group(items, t)
    ensures KeyOf(t) !in byKey ==> MethodsOf(items, t) == []
  {
    if KeyOf(t) in byKey {
      assert FromItem(items, byKey, KeyOf(t));
      var k :| 0 <= k < |items| && KeyOf(t) == KeyOf(items[k].id);
      KeyInjective(t, items[k].id);
    } else if MethodsOf(items, t) != [] {
      MethodsMember(items, t, MethodsOf(items, t)[0]);
      assert false;
    }
  }

  lemma GroupsExtend(items: seq<Item>, i: nat, before: map<string, Permission>, after: map<string, Permission>)
    requires i < |items| && AllSeparable(items) && Groups(items[..i], before)
    requires after == AddMethod(before, items[i].id, items[i].method_)
    ensures Groups(items[..i + 1], after)
  {
    var more := items[..i + 1];
    forall k | 0 <= k < |more|
      ensures KeyOf(more[k].id) in after && after[KeyOf(more[k].id)] == Group(more, more[k].id)
    {
      GroupExtended(items, i, before, after, k);
    }
    forall key | key in after ensures FromItem(more, after, key) {
      if key == KeyOf(items[i].id) {
        assert key == KeyOf(more[i].id);
      } else {
        assert FromItem(items[..i], before, key);
        var k :| 0 <= k < i && key == KeyOf(items[..i][k].id);
        assert more[k] == items[..i][k];
      }
    }
  }

  lemma GroupExtended(items: seq<Item>, i: nat, before: map<string, Permission>, after: map<string, Permission>, k: nat)
    requires k <= i < |items| && AllSeparable(items) && Groups(items[..i], before)
    requires after == AddMethod(before, items[i].id, items[i].method_)
    ensures KeyOf(items[k].id) in after && after[KeyOf(items[k].id)] == Group(items[..i + 1], items[k].id)
  {
    var t, u := items[i].id, items[k].id;
    MethodsSnoc(items, i, u);
    if u == t {
      GroupFound(items[..i], before, t);
    } else {
      assert k < i && items[..i][k] == items[k];
      OtherGroupKept(items[..i], before, k, t, items[i].method_);
    }
  }

  lemma OtherGroupKept(items: seq<Item>, before: map<string, Permission>, k: nat, t: Triple, m: string)
    requires k < |items| && AllSeparable(items) && Separable(t) && Groups(items, before) && items[k].id != t
    ensures KeyOf(items[k].id) in AddMethod(before, t, m)
    ensures AddMethod(before, t, m)[KeyOf(items[k].id)] == Group(items, items[k].id)
  {
    if KeyOf(items[k].id) == KeyOf(t) { KeyInjective(items[k].id, t); }
  }

  lemma MethodsSnoc(items: seq<Item>, i: nat, t: Triple)
    requires i < |items|
    ensures MethodsOf(items[..i + 1], t)
        == MethodsOf(items[..i], t) + (if items[i].id == t then [items[i].method_] else [])
    ensures Group(items[..i + 1], t).methods == MethodsOf(items[..i + 1], t)
  {
    assert items[..i + 1][..i] == items[..i];
  }

  function Finished(p: Permission): Permission {
    p.(methods := Sort(StrLe, p.methods), roles := Unique(p.roles))
  }

  /** `permissionsFromOperations`, for any iteration order of the grouping map. */
  method PermissionsFromOperations(ops: seq<APIOperation>) returns (result: seq<Permission>)
    requires AllSeparable(ItemsOf(ops))
    ensures result == Derived(ops)
  {
    var byKey := GroupOperations(ops);
    ghost var taken;
    result, taken := DrainGroups(byKey);
    ghost var items := ItemsOf(ops);
    CollectedShape(items, byKey, taken, result);
    result := Sort(PermissionLe, result);
    DerivedHasShape(items);
    DerivedShapeIsUnique(items, result, Derived(ops));
  }

  ghost predicate Drained(byKey: map<string, Permission>, taken: seq<string>, ps: seq<Permission>) {
    && |taken| == |ps| && AllDifferent(taken)
    && (forall i :: 0 <= i < |taken| ==> taken[i] in byKey && ps[i] == Finished(byKey[taken[i]]))
  }

  /** The second loop: the map's permissions, finished, in whatever order the map yields them. */
  method DrainGroups(byKey: map<string, Permission>) returns (ps: seq<Permission>, ghost taken: seq<string>)
    ensures Drained(byKey, taken, ps) && forall key :: key in byKey ==> key in taken
    ensures |ps| == |byKey| && forall key :: key in byKey ==> Finished(byKey[key]) in ps
  {
    ps, taken := [], [];
    var left := byKey.Keys;
    while left != {}
      invariant left <= byKey.Keys && Drained(byKey, taken, ps)
      invariant forall key :: key in byKey ==> key in left || key in taken
      invariant forall i :: 0 <= i < |taken| ==> taken[i] !in left
      invariant |ps| + |left| == |byKey.Keys|
      invariant forall key :: key in byKey && key !in left ==> Finished(byKey[key]) in ps
      decreases left
    {
      var key :| key in left;
      ps := ps + [Finished(byKey[key])];
      taken := taken + [key];
      left := left - {key};
    }
  }

  lemma CollectedShape(items: seq<Item>, byKey: map<string, Permission>, taken: seq<string>, ps: seq<Permission>)
    requires AllSeparable(items) && Groups(items, byKey)
    requires Drained(byKey, taken, ps) && forall key :: key in byKey ==> key in taken
    ensures DerivedShape(items, Sort(PermissionLe, ps))
  {
    var sorted := Sort(PermissionLe, ps);
    PermissionLePreOrder();
    SortIsSorted(PermissionLe, ps);
    SortIsPermutation(PermissionLe, ps);
    forall i | 0 <= i < |ps| ensures IsPermissionOf(items, ps[i]) && KeyOf(IdentityOf(ps[i])) == taken[i] {
      CollectedOne(items, byKey, taken[i]);
    }
    DifferentIdentities(ps, sorted);
    MembersOfMultiset(ps, sorted);
    forall p ensures p in ps <==> IsPermissionOf(items, p) {
      if IsPermissionOf(items, p) { CollectedAll(items, byKey, taken, ps, p); }
    }
  }

  lemma CollectedOne(items: seq<Item>, byKey: map<string, Permission>, key: string)
    requires AllSeparable(items) && Groups(items, byKey) && key in byKey
    ensures IsPermissionOf(items, Finished(byKey[key])) && KeyOf(IdentityOf(Finished(byKey[key]))) == key
  {
    assert FromItem(items, byKey, key);
    var k :| 0 <= k < |items| && key == KeyOf(items[k].id);
    assert Finished(byKey[key]) == PermissionFor(items, items[k].id);
  }

  lemma CollectedAll(items: seq<Item>, byKey: map<string, Permission>, taken: seq<string>, ps: seq<Permission>,
      p: Permission)
    requires AllSeparable(items) && Groups(items, byKey) && IsPermissionOf(items, p)
    requires Drained(byKey, taken, ps) && forall key :: key in byKey ==> key in taken
    ensures p in ps
  {
    var k :| 0 <= k < |items| && items[k].id == IdentityOf(p);
    var i :| 0 <= i < |taken| && taken[i] == KeyOf(items[k].id);
    assert ps[i] == Finished(Group(items, items[k].id));
    assert Separable(items[k].id);
  }
}
