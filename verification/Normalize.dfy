/** `Normalize` on whole schemas, and what a second `Normalize` does to its result. */
module Normalize {
  import opened Options
  import opened SchemaTypes
  import opened Ordering
  import opened Text
  import opened Uniques
  import opened PolicyRules
  import opened ApiPaths
  import opened Normalizers
  import opened NormalEntities
  import opened NormalOperations
  import Derivation = PermissionDerivation

  /** `components` keeps the names in each group. */
  datatype Schema = Schema(version: int, module_: string, entity: Entity, entities: seq<Entity>, crud: seq<string>,
                           permissions: seq<Permission>, operations: seq<APIOperation>,
                           components: map<string, set<string>>)

  // ---------------------------------------------------------------- the parts

  predicate ComponentsOk(components: map<string, set<string>>) {
    forall g :: g in components ==>
      (g == "schemas" || g == "responses") && forall n :: n in components[g] ==> TypeName(n)
  }

  function ResponseNames(components: map<string, set<string>>): set<string> {
    if "responses" in components then components["responses"] else {}
  }

  predicate CrudName(s: string) { s == "create" || s == "get" || s == "list" || s == "update" || s == "delete" }

  ghost function NormCrud(crud: seq<string>): Option<seq<string>> {
    var c := LowerTrims(crud);
    if (forall x :: x in c ==> CrudName(x)) && NoRepeats(c) then Some(Sort(StrLe, c)) else None
  }

  ghost function NormPermission(p: Permission): Option<Permission> {
    var q := p.(name := Trim(p.name), path := Trim(p.path), methods := Sort(StrLe, UpperTrims(p.methods)));
    if PermissionId(q.name) && ValidPermissionPath(q.path) && q.methods != []
       && (forall m :: m in q.methods ==> HttpMethod(m)) && NoRepeats(q.methods)
    then Some(q) else None
  }

  predicate NameLe(a: Permission, b: Permission) { StrLe(a.name, b.name) }

  ghost predicate DistinctNames(ps: seq<Permission>) { forall i, j :: 0 <= i < j < |ps| ==> ps[i].name != ps[j].name }

  ghost function NormPermissions(ps: seq<Permission>): Option<seq<Permission>> {
    var each := NormAll(NormPermission, ps);
    if each.None? || !DistinctNames(each.value) then None else Some(Sort(NameLe, each.value))
  }

  predicate RouteLe(a: APIOperation, b: APIOperation) {
    if a.path == b.path then StrLe(a.method_, b.method_) else StrLe(a.path, b.path)
  }

  ghost predicate DistinctRoutes(ops: seq<APIOperation>) {
    forall i, j :: 0 <= i < j < |ops| ==>
      ops[i].operationId != ops[j].operationId && (ops[i].method_ != ops[j].method_ || ops[i].path != ops[j].path)
  }

  ghost function NormOperations(responses: set<string>, ops: seq<APIOperation>): Option<seq<APIOperation>> {
    var each := NormAll(op => NormOperation(responses, op), ops);
    if each.None? || !DistinctRoutes(each.value) then None else Some(Sort(RouteLe, each.value))
  }

  ghost function NormEntityPart(s: Schema): Option<Schema> {
    if s.version == 2 then
      var es := NormEntities(s.entities);
      if es.None? || PrimaryOf(es.value).None? then None
      else Some(s.(entities := es.value, entity := PrimaryOf(es.value).value))
    else if NormEntity(s.entity).None? then None
    else Some(s.(entity := NormEntity(s.entity).value))
  }

  ghost function NormApiPart(s: Schema): Option<Schema> {
    var crud, permissions, ops := NormCrud(s.crud), NormPermissions(s.permissions),
        NormOperations(ResponseNames(s.components), s.operations);
    if !ComponentsOk(s.components) || crud.None? || permissions.None? || ops.None? then None
    else Some(s.(crud := crud.value, operations := ops.value,
                 permissions := if ops.value == [] then permissions.value else Derivation.Derived(ops.value)))
  }

  ghost function NormSchema(s: Schema): Option<Schema> {
    if s.version != 1 && s.version != 2 then None
    else if !PackageName(Trim(s.module_)) then None
    else
      var e := NormEntityPart(s.(module_ := Trim(s.module_)));
      if e.None? then None else NormApiPart(e.value)
  }

  // ---------------------------------------------------------------- entities and CRUD names

  lemma EntityPartTwice(s: Schema)
    requires NormEntityPart(s).Some?
    ensures NormEntityPart(NormEntityPart(s).value) == NormEntityPart(s)
  {
    if s.version == 2 {
      NormEntitiesSettles(s.entities);
    } else {
      NormEntitySettles();
    }
  }

  lemma CrudTwice(crud: seq<string>)
    requires NormCrud(crud).Some?
    ensures NormCrud(NormCrud(crud).value) == NormCrud(crud)
  {
    var c := LowerTrims(crud);
    StrSortTwice(c);
    LowerTrimsMembers(crud);
    LowerTrimsFixed(Sort(StrLe, c));
  }

  // ---------------------------------------------------------------- permissions

  lemma PermissionsSettle()
    ensures Settles(NormPermission)
  {
    forall p | NormPermission(p).Some? ensures NormPermission(NormPermission(p).value) == NormPermission(p) {
      TrimTwice(p.name);
      TrimTwice(p.path);
      SortedMethodsTwice(p.methods);
    }
  }

  lemma SortedMethodsTwice(ms: seq<string>)
    ensures Sort(StrLe, UpperTrims(Sort(StrLe, UpperTrims(ms)))) == Sort(StrLe, UpperTrims(ms))
  {
    StrSortTwice(UpperTrims(ms));
    UpperTrimsMembers(ms);
    UpperTrimsFixed(Sort(StrLe, UpperTrims(ms)));
  }

  lemma NameLePreOrder()
    ensures PreOrder(NameLe)
  {
    forall x, y ensures NameLe(x, y) || NameLe(y, x) { StrLeTotal(x.name, y.name); }
    forall x, y, z | NameLe(x, y) && NameLe(y, z) ensures NameLe(x, z) { StrLeTransitive(x.name, y.name, z.name); }
  }

  lemma SameName(ps: seq<Permission>, x: Permission, y: Permission)
    requires DistinctNames(ps) && x in ps && y in ps && NameLe(x, y) && NameLe(y, x)
    ensures x == y
  {
    StrLeTotal(x.name, y.name);
    var i :| 0 <= i < |ps| && ps[i] == x;
    var j :| 0 <= j < |ps| && ps[j] == y;
  }

  /** Sorting by name keeps the names distinct. */
  lemma SortedNamesDistinct(ps: seq<Permission>)
    requires DistinctNames(ps)
    ensures DistinctNames(Sort(NameLe, ps))
  {
    var qs := Sort(NameLe, ps);
    SortIsPermutation(NameLe, ps);
    MembersOfMultiset(qs, ps);
    forall i, j | 0 <= i < j < |qs| ensures qs[i].name != qs[j].name {
      assert qs[i] in ps && qs[j] in ps;
      if qs[i].name == qs[j].name {
        StrLeTotal(qs[i].name, qs[j].name);
        SameName(ps, qs[i], qs[j]);
        var k :| 0 <= k < |ps| && ps[k] == qs[i];
        TwiceInSequence(qs, i, j);
        OnceInSequence(ps, k);
        assert false;
      }
    }
  }

  /** Permissions that are settled and ordered by distinct names are left alone. */
  lemma PermissionsFixed(ps: seq<Permission>)
    requires DistinctNames(ps) && SortedBy(NameLe, ps) && forall p :: p in ps ==> NormPermission(p) == Some(p)
    ensures NormPermissions(ps) == Some(ps)
  {
    NormAllFixed(NormPermission, ps);
    NameLePreOrder();
    forall x, y | x in ps && y in ps && NameLe(x, y) && NameLe(y, x) ensures x == y { SameName(ps, x, y); }
    SortOfSorted(NameLe, ps);
  }

  lemma PermissionsTwice(ps: seq<Permission>)
    requires NormPermissions(ps).Some?
    ensures NormPermissions(NormPermissions(ps).value) == NormPermissions(ps)
    ensures DistinctNames(NormPermissions(ps).value)
  {
    var each := NormAll(NormPermission, ps).value;
    var qs := Sort(NameLe, each);
    PermissionsSettle();
    NormAllSettles(NormPermission, ps);
    NameLePreOrder();
    SortIsSorted(NameLe, each);
    SortIsPermutation(NameLe, each);
    MembersOfMultiset(qs, each);
    SortedNamesDistinct(each);
    PermissionsFixed(qs);
  }

  // ---------------------------------------------------------------- derived permissions

  lemma {:induction false} CharsOfSplit(s: string, sep: char, i: nat)
    requires i < |s|
    ensures s[i] == sep || exists p :: p in Split(s, sep) && s[i] in p
  {
    var parts := Split(s, sep);
    if i == 0 {
      if s[0] != sep { assert s[0] in parts[0]; }
    } else {
      CharsOfSplit(s[1..], sep, i - 1);
      assert s[1..][i - 1] == s[i];
      if s[i] != sep {
        var rest := Split(s[1..], sep);
        var p :| p in rest && s[i] in p;
        CarriedPart(s, sep, p, s[i]);
      }
    }
  }

  lemma CarriedPart(s: string, sep: char, p: string, c: char)
    requires s != "" && p in Split(s[1..], sep) && c in p
    ensures exists q :: q in Split(s, sep) && c in q
  {
    var rest, parts := Split(s[1..], sep), Split(s, sep);
    var k :| 0 <= k < |rest| && rest[k] == p;
    if s[0] == sep {
      assert parts == [""] + rest;
      assert parts[k + 1] == p;
    } else {
      assert parts == [[s[0]] + rest[0]] + rest[1..];
      if k == 0 { assert c in parts[0]; } else { assert parts[k] == rest[1..][k - 1] == p; }
    }
  }

  /** No character of a valid permission path is a space. */
  lemma PermissionPathIsTrimmed(path: string)
    requires ValidPermissionPath(path)
    ensures Trim(path) == path
  {
    var last := |path| - 1;
    assert |PREFIX| == 8;
    CharsOfSplit(path[1..], '/', last - 1);
    assert path[1..][last - 1] == path[last];
    var p :| p in Split(path[1..], '/') && path[last] in p;
    SegmentHasNoSpace(p, path[last]);
    assert path[..|PREFIX|][0] == '/';
    TrimOfTrimmed(path);
  }

  lemma SegmentHasNoSpace(p: string, c: char)
    requires PermissionSegment(p) && c in p
    ensures !IsSpace(c)
  {
    var i :| 0 <= i < |p| && p[i] == c;
    if !LiteralSegment(p) { assert i > 0 ==> p[1..][i - 1] == c; }
  }

  /** What an accepted operation contributes to its permission. */
  ghost predicate OperationSettled(op: APIOperation) {
    && UpperTrim(op.method_) == op.method_ && HttpMethod(op.method_) && ValidOperationPath(op.path)
    && Trim(op.permission) == op.permission && PermissionId(op.permission)
    && Unique(op.defaultRoles) == op.defaultRoles && forall r :: r in op.defaultRoles ==> PackageName(r)
  }

  lemma AcceptedIsSettled(responses: set<string>, op: APIOperation)
    requires NormOperation(responses, op).Some?
    ensures OperationSettled(NormOperation(responses, op).value)
  {
    var c := CleanScalars(op);
    UpperTrimTwice(op.method_);
    TrimTwice(op.permission);
    UniqueTwice(op.defaultRoles);
    assert ScalarsOk(c);
  }

  lemma NoNulInId(s: string)
    requires PermissionId(s)
    ensures Derivation.NUL !in s
  {
    forall i | 0 <= i < |s| ensures s[i] != Derivation.NUL {
      CharsOfSplit(s, ':', i);
      if s[i] != ':' {
        var p :| p in Split(s, ':') && s[i] in p;
        assert WordName(p);
      }
    }
  }

  lemma NoNulInPath(path: string)
    requires ValidPermissionPath(path)
    ensures Derivation.NUL !in path
  {
    forall i | 0 <= i < |path| ensures path[i] != Derivation.NUL { NoNulAt(path, i); }
  }

  lemma NoNulAt(path: string, i: nat)
    requires ValidPermissionPath(path) && i < |path|
    ensures path[i] != Derivation.NUL
  {
    assert path[..|PREFIX|][0] == '/';
    if i > 0 {
      CharsOfSplit(path[1..], '/', i - 1);
      assert path[1..][i - 1] == path[i];
      if path[i] != '/' {
        var p :| p in Split(path[1..], '/') && path[i] in p;
        SegmentHasNoNul(p, path[i]);
      }
    }
  }

  lemma SegmentHasNoNul(p: string, c: char)
    requires PermissionSegment(p) && c in p
    ensures c != Derivation.NUL
  {
    var i :| 0 <= i < |p| && p[i] == c;
    if !LiteralSegment(p) { assert i > 0 ==> p[1..][i - 1] == c; }
  }

  lemma SettledIsSeparable(op: APIOperation)
    requires OperationSettled(op)
    ensures Derivation.Separable(Derivation.TripleOf(op))
  {
    var t := Derivation.TripleOf(op);
    NoNulInId(op.permission);
    TranslationOfValidPath(op.path);
    NoNulInPath(ToCasbin(op.path));
    forall i | 0 <= i < |t.roles| ensures Derivation.NUL !in t.roles[i] && t.roles[i] != "" {
      assert t.roles[i] in op.defaultRoles && PackageName(t.roles[i]);
    }
  }

  ghost predicate AllSettled(ops: seq<APIOperation>) { forall op :: op in ops ==> OperationSettled(op) }

  lemma SettledAreNormalized(ops: seq<APIOperation>)
    requires AllSettled(ops) && DistinctRoutes(ops)
    ensures Derivation.NormalizedOperations(ops)
  {
    forall k | 0 <= k < |ops| ensures ValidOperationPath(ops[k].path)
        && Derivation.Separable(Derivation.TripleOf(ops[k])) {
      SettledIsSeparable(ops[k]);
    }
  }

  /** Each derived permission passes the checks of a declared one unchanged. */
  lemma DerivedIsSettled(ops: seq<APIOperation>, i: nat)
    requires AllSettled(ops) && DistinctRoutes(ops) && i < |Derivation.Derived(ops)|
    ensures NormPermission(Derivation.Derived(ops)[i]) == Some(Derivation.Derived(ops)[i])
  {
    var p := Derivation.Derived(ops)[i];
    SettledAreNormalized(ops);
    Derivation.NothingExtra(ops, i);
    forall m | m in p.methods ensures UpperTrim(m) == m && HttpMethod(m) {
      var k :| 0 <= k < |ops| && Derivation.Covers(p, ops[k]) && ops[k].method_ == m;
      assert OperationSettled(ops[k]);
    }
    assert p.methods[0] in p.methods;
    var k :| 0 <= k < |ops| && Derivation.Covers(p, ops[k]) && ops[k].method_ == p.methods[0];
    assert OperationSettled(ops[k]);
    TranslationOfValidPath(ops[k].path);
    PermissionPathIsTrimmed(p.path);
    UpperTrimsFixed(p.methods);
    IncreasingIsSorted(p.methods);
  }

  lemma {:induction false} IncreasingIsSorted(ms: seq<string>)
    requires Increasing(ms)
    ensures Sort(StrLe, ms) == ms
  {
    StrLePreOrder();
    forall x, y | StrLe(x, y) && StrLe(y, x) ensures x == y { StrLeTotal(x, y); }
    SortOfSorted(StrLe, ms);
  }

  lemma DerivedIsByName(ops: seq<APIOperation>)
    ensures SortedBy(NameLe, Derivation.Derived(ops))
  {
    var ps := Derivation.Derived(ops);
    Derivation.DerivedHasShape(Derivation.ItemsOf(ops));
    forall i, j | 0 <= i < j < |ps| ensures NameLe(ps[i], ps[j]) {
      assert Derivation.PermissionLe(ps[i], ps[j]);
      StrLeTotal(ps[i].name, ps[j].name);
    }
  }

  /** Derived permissions are accepted as declared ones exactly when their names are distinct. */
  lemma DerivedAccepted(ops: seq<APIOperation>)
    requires AllSettled(ops) && DistinctRoutes(ops)
    ensures NormPermissions(Derivation.Derived(ops)) ==
      if DistinctNames(Derivation.Derived(ops)) then Some(Derivation.Derived(ops)) else None
  {
    var ps := Derivation.Derived(ops);
    forall i | 0 <= i < |ps| ensures NormPermission(ps[i]) == Some(ps[i]) { DerivedIsSettled(ops, i); }
    NormAllFixed(NormPermission, ps);
    DerivedIsByName(ops);
    if DistinctNames(ps) { PermissionsFixed(ps); }
  }

  // ---------------------------------------------------------------- operations

  lemma RouteLeTransitive(x: APIOperation, y: APIOperation, z: APIOperation)
    requires RouteLe(x, y) && RouteLe(y, z)
    ensures RouteLe(x, z)
  {
    StrLeTotal(x.path, y.path);
    StrLeTotal(y.path, z.path);
    if StrLe(x.path, y.path) && StrLe(y.path, z.path) { StrLeTransitive(x.path, y.path, z.path); }
    if StrLe(x.method_, y.method_) && StrLe(y.method_, z.method_) { StrLeTransitive(x.method_, y.method_, z.method_); }
    StrLeTotal(x.path, z.path);
  }

  lemma RouteLePreOrder()
    ensures PreOrder(RouteLe)
  {
    forall x, y ensures RouteLe(x, y) || RouteLe(y, x) {
      StrLeTotal(x.path, y.path);
      StrLeTotal(x.method_, y.method_);
    }
    forall x, y, z | RouteLe(x, y) && RouteLe(y, z) ensures RouteLe(x, z) { RouteLeTransitive(x, y, z); }
  }

  lemma SameRoute(ops: seq<APIOperation>, x: APIOperation, y: APIOperation)
    requires DistinctRoutes(ops) && x in ops && y in ops && RouteLe(x, y) && RouteLe(y, x)
    ensures x == y
  {
    StrLeTotal(x.path, y.path);
    StrLeTotal(x.method_, y.method_);
    var i :| 0 <= i < |ops| && ops[i] == x;
    var j :| 0 <= j < |ops| && ops[j] == y;
  }

  lemma PermutedRoutes(a: seq<APIOperation>, b: seq<APIOperation>)
    requires multiset(a) == multiset(b) && DistinctRoutes(a)
    ensures DistinctRoutes(b)
  {
    MembersOfMultiset(a, b);
    forall i, j | 0 <= i < j < |b|
      ensures b[i].operationId != b[j].operationId && (b[i].method_ != b[j].method_ || b[i].path != b[j].path)
    {
      assert b[i] in a && b[j] in a;
      var k :| 0 <= k < |a| && a[k] == b[i];
      var l :| 0 <= l < |a| && a[l] == b[j];
      if k == l {
        TwiceInSequence(b, i, j);
        OnceInSequence(a, k);
        assert false;
      }
    }
  }

  /** What an accepted operation list is like. */
  ghost predicate NormalOps(responses: set<string>, ops: seq<APIOperation>) {
    && DistinctRoutes(ops) && SortedBy(RouteLe, ops) && AllSettled(ops)
    && forall op :: op in ops ==> NormOperation(responses, op) == if HidesKey(op) then None else Some(op)
  }

  ghost predicate ComesFrom(responses: set<string>, ops: seq<APIOperation>, n: APIOperation) {
    exists i :: 0 <= i < |ops| && NormOperation(responses, ops[i]) == Some(n)
  }

  lemma EachAccepted(responses: set<string>, ops: seq<APIOperation>, each: seq<APIOperation>, i: nat)
    requires NormAll(op => NormOperation(responses, op), ops) == Some(each) && i < |each|
    ensures ComesFrom(responses, ops, each[i])
  {
    var f := op => NormOperation(responses, op);
    NormAllEach(f, ops);
    assert f(ops[i]) == NormOperation(responses, ops[i]);
  }

  lemma AcceptedOnce(responses: set<string>, ops: seq<APIOperation>, n: APIOperation)
    requires ComesFrom(responses, ops, n)
    ensures OperationSettled(n) && NormOperation(responses, n) == if HidesKey(n) then None else Some(n)
  {
    var i :| 0 <= i < |ops| && NormOperation(responses, ops[i]) == Some(n);
    OperationTwice(responses, ops[i]);
    AcceptedIsSettled(responses, ops[i]);
  }

  lemma AcceptedSorted(each: seq<APIOperation>)
    requires DistinctRoutes(each)
    ensures var r := Sort(RouteLe, each);
      DistinctRoutes(r) && SortedBy(RouteLe, r) && |r| == |each| && forall x :: x in r <==> x in each
  {
    var r := Sort(RouteLe, each);
    RouteLePreOrder();
    SortIsSorted(RouteLe, each);
    SortIsPermutation(RouteLe, each);
    MembersOfMultiset(r, each);
    PermutedRoutes(each, r);
  }

  lemma AcceptedOperations(responses: set<string>, ops: seq<APIOperation>)
    requires NormOperations(responses, ops).Some?
    ensures NormalOps(responses, NormOperations(responses, ops).value)
    ensures forall n :: n in NormOperations(responses, ops).value ==> ComesFrom(responses, ops, n)
  {
    var each := NormAll(op => NormOperation(responses, op), ops).value;
    var r := Sort(RouteLe, each);
    AcceptedSorted(each);
    forall n | n in r ensures ComesFrom(responses, ops, n) {
      var i :| 0 <= i < |each| && each[i] == n;
      EachAccepted(responses, ops, each, i);
    }
    forall n | n in r ensures OperationSettled(n)
        && NormOperation(responses, n) == (if HidesKey(n) then None else Some(n)) {
      AcceptedOnce(responses, ops, n);
    }
  }

  ghost predicate NoHiddenKeys(ops: seq<APIOperation>) { forall op :: op in ops ==> !HidesKey(op) }

  lemma OperationsTwice(responses: set<string>, ops: seq<APIOperation>)
    requires NormalOps(responses, ops)
    ensures NormOperations(responses, ops) == if NoHiddenKeys(ops) then Some(ops) else None
  {
    var f := op => NormOperation(responses, op);
    if NoHiddenKeys(ops) {
      forall i | 0 <= i < |ops| ensures f(ops[i]) == Some(ops[i]) { assert ops[i] in ops; }
      NormAllFixed(f, ops);
      RouteLePreOrder();
      forall x, y | x in ops && y in ops && RouteLe(x, y) && RouteLe(y, x) ensures x == y { SameRoute(ops, x, y); }
      SortOfSorted(RouteLe, ops);
    } else {
      var op :| op in ops && HidesKey(op);
      var i :| 0 <= i < |ops| && ops[i] == op;
      assert f(ops[i]).None?;
      NormAllEach(f, ops);
    }
  }

  // ---------------------------------------------------------------- the whole schema

  lemma ApiPartTwice(s: Schema)
    requires NormApiPart(s).Some?
    ensures var n := NormApiPart(s).value;
      NormApiPart(n) == if DistinctNames(n.permissions) && NoHiddenKeys(n.operations) then Some(n) else None
  {
    var n, responses := NormApiPart(s).value, ResponseNames(s.components);
    CrudTwice(s.crud);
    PermissionsTwice(s.permissions);
    AcceptedOperations(responses, s.operations);
    OperationsTwice(responses, n.operations);
    if n.operations != [] { DerivedAccepted(n.operations); }
  }

  /** Normalising an accepted schema again changes nothing if every permission name occurs once and
      no operation hides a key header; otherwise the second normalisation refuses the schema. */
  lemma NormalizeTwice(s: Schema)
    requires NormSchema(s).Some?
    ensures var n := NormSchema(s).value;
      NormSchema(n) == if DistinctNames(n.permissions) && NoHiddenKeys(n.operations) then Some(n) else None
  {
    var e := NormEntityPart(s.(module_ := Trim(s.module_))).value;
    var n := NormSchema(s).value;
    TrimTwice(s.module_);
    EntityPartTwice(s.(module_ := Trim(s.module_)));
    ApiPartTwice(e);
    EntityPartOf(e, n);
  }

  /** The two halves of the normalisation do not touch each other's fields. */
  lemma EntityPartOf(e: Schema, n: Schema)
    requires NormEntityPart(e) == Some(e)
        && n == e.(crud := n.crud, operations := n.operations, permissions := n.permissions)
    ensures NormEntityPart(n) == Some(n)
  {
  }

  // ---------------------------------------------------------------- conditions on the input

  /** Operations under one permission name share path and roles. */
  ghost predicate NamesDecide(ops: seq<APIOperation>) {
    forall i, j :: 0 <= i < |ops| && 0 <= j < |ops| && ops[i].permission == ops[j].permission ==>
      ops[i].path == ops[j].path && ops[i].defaultRoles == ops[j].defaultRoles
  }

  /** That is exactly when the derived names are distinct. */
  lemma DistinctNamesIff(ops: seq<APIOperation>)
    requires AllSettled(ops) && DistinctRoutes(ops)
    ensures DistinctNames(Derivation.Derived(ops)) <==> NamesDecide(ops)
  {
    var ps := Derivation.Derived(ops);
    SettledAreNormalized(ops);
    if NamesDecide(ops) {
      forall i, j | 0 <= i < j < |ps| ensures ps[i].name != ps[j].name { NamesDecideApart(ops, i, j); }
    }
    if DistinctNames(ps) {
      forall i, j | 0 <= i < |ops| && 0 <= j < |ops| && ops[i].permission == ops[j].permission
        ensures ops[i].path == ops[j].path && ops[i].defaultRoles == ops[j].defaultRoles
      {
        OneIdentity(ops, i, j);
      }
    }
  }

  lemma NamesDecideApart(ops: seq<APIOperation>, i: nat, j: nat)
    requires Derivation.NormalizedOperations(ops) && NamesDecide(ops) && i < j < |Derivation.Derived(ops)|
    ensures Derivation.Derived(ops)[i].name != Derivation.Derived(ops)[j].name
  {
    var p, q := Derivation.Derived(ops)[i], Derivation.Derived(ops)[j];
    Derivation.PermissionsDiffer(ops, i, j);
    Derivation.NothingExtra(ops, i);
    Derivation.NothingExtra(ops, j);
    assert p.methods[0] in p.methods && q.methods[0] in q.methods;
    var k :| 0 <= k < |ops| && Derivation.Covers(p, ops[k]) && ops[k].method_ == p.methods[0];
    var l :| 0 <= l < |ops| && Derivation.Covers(q, ops[l]) && ops[l].method_ == q.methods[0];
  }

  lemma OneIdentity(ops: seq<APIOperation>, i: nat, j: nat)
    requires Derivation.NormalizedOperations(ops) && AllSettled(ops) && DistinctNames(Derivation.Derived(ops))
    requires i < |ops| && j < |ops| && ops[i].permission == ops[j].permission
    ensures ops[i].path == ops[j].path && ops[i].defaultRoles == ops[j].defaultRoles
  {
    var ps := Derivation.Derived(ops);
    Derivation.OperationIsCovered(ops, i);
    Derivation.OperationIsCovered(ops, j);
    var k :| 0 <= k < |ps| && Derivation.Covers(ps[k], ops[i]) && multiset(ps[k].methods)[ops[i].method_] == 1;
    var l :| 0 <= l < |ps| && Derivation.Covers(ps[l], ops[j]) && multiset(ps[l].methods)[ops[j].method_] == 1;
    assert k == l;
    assert OperationSettled(ops[i]) && OperationSettled(ops[j]);
    TranslationIsInjective(ops[i].path, ops[j].path);
  }

  lemma TrimmedHeadersHideNothing(responses: set<string>, ops: seq<APIOperation>)
    requires NormOperations(responses, ops).Some?
    requires forall op, h :: op in ops && h in op.headers ==> Trim(h.name) == h.name
    ensures NoHiddenKeys(NormOperations(responses, ops).value)
  {
    AcceptedOperations(responses, ops);
    forall n | n in NormOperations(responses, ops).value ensures !HidesKey(n) {
      assert ComesFrom(responses, ops, n);
      var i :| 0 <= i < |ops| && NormOperation(responses, ops[i]) == Some(n);
      TrimmedNamesHideNothing(responses, ops[i]);
    }
  }

  lemma NamesDecideDistinct(e: Schema)
    requires NormApiPart(e).Some? && NamesDecide(NormApiPart(e).value.operations)
    ensures DistinctNames(NormApiPart(e).value.permissions)
  {
    AcceptedOperations(ResponseNames(e.components), e.operations);
    PermissionsTwice(e.permissions);
    DistinctNamesIff(NormApiPart(e).value.operations);
  }

  /** In terms of the accepted operations and of the header names as first written: with one path and
      role set per permission name, and header names free of surrounding space, the second
      normalisation changes nothing. */
  lemma NormalizeIsIdempotent(s: Schema)
    requires NormSchema(s).Some?
    requires NamesDecide(NormSchema(s).value.operations)
    requires forall op, h :: op in s.operations && h in op.headers ==> Trim(h.name) == h.name
    ensures NormSchema(NormSchema(s).value) == NormSchema(s)
  {
    NormalizeTwice(s);
    AcceptedApiPart(s);
    TrimmedHeadersHideNothing(ResponseNames(s.components), s.operations);
    NamesDecideDistinct(NormEntityPart(s.(module_ := Trim(s.module_))).value);
  }

  /** The entity half leaves the operations as they were written. */
  lemma AcceptedApiPart(s: Schema)
    requires NormSchema(s).Some?
    ensures NormEntityPart(s.(module_ := Trim(s.module_))).Some?
    ensures var e := NormEntityPart(s.(module_ := Trim(s.module_))).value;
      && NormApiPart(e) == NormSchema(s)
      && NormOperations(ResponseNames(s.components), s.operations) == Some(NormSchema(s).value.operations)
  {
    var e := NormEntityPart(s.(module_ := Trim(s.module_))).value;
    assert e.operations == s.operations && e.components == s.components;
  }
}
