/** Which schemas are accepted, and what an accepted one says, in terms of the schema as it was written. */
module DeclaredSchema {
  import opened Options
  import opened SchemaTypes
  import opened Ordering
  import opened Text
  import opened Uniques
  import opened PolicyRules
  import opened ApiPaths
  import opened Normalizers
  import opened NormalEntities
  import opened NormalOperations
  import opened Normalize
  import opened EntityOrder
  import opened DeclaredEntities
  import opened DeclaredLists
  import opened DeclaredOperations
  import Derivation = PermissionDerivation

  // ---------------------------------------------------------------- CRUD names and permissions

  /** In small letters, each one of the five, none twice; in order. */
  ghost predicate DeclaresCrud(written: seq<string>, crud: seq<string>) {
    && SortedBy(StrLe, crud) && (forall i, j :: 0 <= i < j < |crud| ==> crud[i] != crud[j])
    && multiset(crud) == multiset(LowerTrims(written))
    && forall c :: c in crud ==> c in {"create", "get", "list", "update", "delete"}
  }

  lemma CrudIff(written: seq<string>, crud: seq<string>)
    ensures NormCrud(written) == Some(crud) <==> DeclaresCrud(written, crud)
  {
    var c := LowerTrims(written);
    StrLePreOrder();
    SortIsSorted(StrLe, c);
    SortIsPermutation(StrLe, c);
    if multiset(crud) == multiset(c) {
      SameNames(c, crud);
      if SortedBy(StrLe, crud) { SortedStringsAreOne(crud, Sort(StrLe, c)); }
    }
  }

  lemma SameNames(a: seq<string>, b: seq<string>)
    requires multiset(a) == multiset(b)
    ensures NoRepeats(a) <==> NoRepeats(b)
    ensures forall x :: x in a <==> x in b
  {
    MembersOfMultiset(a, b);
    if NoRepeats(a) { NoRepeatsPermutation(a, b); }
    if NoRepeats(b) { NoRepeatsPermutation(b, a); }
  }

  lemma SortedStringsAreOne(a: seq<string>, b: seq<string>)
    requires SortedBy(StrLe, a) && SortedBy(StrLe, b) && multiset(a) == multiset(b)
    ensures a == b
  {
    forall x, y | x in a && y in a && StrLe(x, y) && StrLe(y, x) ensures x == y { StrLeTotal(x, y); }
    SortedPermutationIsUnique(StrLe, a, b);
  }

  /** Methods in capitals and in order, at least one, none twice; the roles as they are. */
  ghost predicate DeclaresPermission(p: Permission, n: Permission) {
    && n.name == Trim(p.name) && PermissionId(n.name) && n.path == Trim(p.path) && ValidPermissionPath(n.path)
    && n.roles == p.roles && |n.methods| > 0 && SortedBy(StrLe, n.methods)
    && (forall i, j :: 0 <= i < j < |n.methods| ==> n.methods[i] != n.methods[j])
    && multiset(n.methods) == multiset(UpperTrims(p.methods))
    && forall m :: m in n.methods ==> m in {"GET", "POST", "PUT", "PATCH", "DELETE"}
  }

  lemma PermissionIff(p: Permission, n: Permission)
    ensures NormPermission(p) == Some(n) <==> DeclaresPermission(p, n)
  {
    var ms := UpperTrims(p.methods);
    StrLePreOrder();
    SortIsSorted(StrLe, ms);
    SortIsPermutation(StrLe, ms);
    if DeclaresPermission(p, n) { SortedStringsAreOne(n.methods, Sort(StrLe, ms)); }
  }

  /** `ns` declares the elements of `ps`, in another order. */
  ghost predicate PermissionsDeclared(ps: seq<Permission>, ns: seq<Permission>) {
    exists each: seq<Permission> :: multiset(ns) == multiset(each) && DeclaresEachPermission(ps, each)
  }

  ghost predicate DeclaresEachPermission(ps: seq<Permission>, each: seq<Permission>) {
    |each| == |ps| && forall i :: 0 <= i < |ps| ==> DeclaresPermission(ps[i], each[i])
  }

  ghost predicate NamesIncrease(ns: seq<Permission>) {
    forall i, j :: 0 <= i < j < |ns| ==> StrLe(ns[i].name, ns[j].name) && ns[i].name != ns[j].name
  }

  lemma EachPermission(ps: seq<Permission>, each: seq<Permission>)
    ensures NormAll(NormPermission, ps) == Some(each) <==> DeclaresEachPermission(ps, each)
  {
    NormAllIff(NormPermission, ps, each);
    forall i | 0 <= i < |ps| && i < |each|
      ensures NormPermission(ps[i]) == Some(each[i]) <==> DeclaresPermission(ps[i], each[i])
    {
      PermissionIff(ps[i], each[i]);
    }
  }

  lemma PermissionsBecome(ps: seq<Permission>)
    requires NormPermissions(ps).Some?
    ensures PermissionsDeclared(ps, NormPermissions(ps).value) && NamesIncrease(NormPermissions(ps).value)
  {
    var each := NormAll(NormPermission, ps).value;
    EachPermission(ps, each);
    SortIsPermutation(NameLe, each);
    SortedNamesIncrease(each);
  }

  lemma SortedNamesIncrease(each: seq<Permission>)
    requires DistinctNames(each)
    ensures NamesIncrease(Sort(NameLe, each))
  {
    NameLePreOrder();
    SortIsSorted(NameLe, each);
    SortedNamesDistinct(each);
    var r := Sort(NameLe, each);
    forall i, j | 0 <= i < j < |r| ensures StrLe(r[i].name, r[j].name) { assert NameLe(r[i], r[j]); }
  }

  ghost predicate PermissionAllowed(p: Permission) { exists n :: DeclaresPermission(p, n) }

  lemma PermissionAllowedIff(p: Permission)
    ensures PermissionAllowed(p) <==> NormPermission(p).Some?
  {
    if NormPermission(p).Some? { PermissionIff(p, NormPermission(p).value); }
    if n :| DeclaresPermission(p, n) { PermissionIff(p, n); }
  }

  ghost predicate PermissionNamesDiffer(ps: seq<Permission>) {
    forall i, j :: 0 <= i < j < |ps| ==> Trim(ps[i].name) != Trim(ps[j].name)
  }

  lemma PermissionsAcceptedIff(ps: seq<Permission>)
    ensures NormPermissions(ps).Some? <==>
      PermissionNamesDiffer(ps) && forall p :: p in ps ==> PermissionAllowed(p)
  {
    NormAllEach(NormPermission, ps);
    forall p ensures PermissionAllowed(p) <==> NormPermission(p).Some? { PermissionAllowedIff(p); }
    if NormAll(NormPermission, ps).Some? { EachNameTrimmed(ps, NormAll(NormPermission, ps).value); }
  }

  lemma EachNameTrimmed(ps: seq<Permission>, each: seq<Permission>)
    requires NormAll(NormPermission, ps) == Some(each)
    ensures DistinctNames(each) <==> PermissionNamesDiffer(ps)
  {
    EachPermission(ps, each);
    forall i | 0 <= i < |ps| ensures each[i].name == Trim(ps[i].name) { assert DeclaresPermission(ps[i], each[i]); }
  }

  // ---------------------------------------------------------------- operations

  ghost predicate OperationsDeclared(own: set<string>, ops: seq<APIOperation>, ns: seq<APIOperation>) {
    exists each: seq<APIOperation> :: multiset(ns) == multiset(each) && DeclaresEachOperation(own, ops, each)
  }

  ghost predicate DeclaresEachOperation(own: set<string>, ops: seq<APIOperation>, each: seq<APIOperation>) {
    |each| == |ops| && forall i :: 0 <= i < |ops| ==> DeclaresOperation(own, ops[i], each[i])
  }

  /** By path, then by method. */
  ghost predicate RoutesIncrease(ns: seq<APIOperation>) {
    forall i, j :: 0 <= i < j < |ns| ==>
      if ns[i].path == ns[j].path then StrLe(ns[i].method_, ns[j].method_) else StrLe(ns[i].path, ns[j].path)
  }

  lemma EachOperation(own: set<string>, ops: seq<APIOperation>, each: seq<APIOperation>)
    ensures NormAll(op => NormOperation(own, op), ops) == Some(each) <==> DeclaresEachOperation(own, ops, each)
  {
    NormAllIff(op => NormOperation(own, op), ops, each);
    forall i | 0 <= i < |ops| && i < |each|
      ensures NormOperation(own, ops[i]) == Some(each[i]) <==> DeclaresOperation(own, ops[i], each[i])
    {
      OperationIff(own, ops[i], each[i]);
    }
  }

  lemma OperationsBecome(own: set<string>, ops: seq<APIOperation>)
    requires NormOperations(own, ops).Some?
    ensures OperationsDeclared(own, ops, NormOperations(own, ops).value)
    ensures RoutesIncrease(NormOperations(own, ops).value) && DistinctRoutes(NormOperations(own, ops).value)
  {
    var each := NormAll(op => NormOperation(own, op), ops).value;
    EachOperation(own, ops, each);
    SortIsPermutation(RouteLe, each);
    AcceptedSorted(each);
    SortedRoutesIncrease(Sort(RouteLe, each));
  }

  lemma SortedRoutesIncrease(ns: seq<APIOperation>)
    requires SortedBy(RouteLe, ns)
    ensures RoutesIncrease(ns)
  {
    forall i, j | 0 <= i < j < |ns| ensures RouteLe(ns[i], ns[j]) {}
  }

  /** As they will be written: identifiers differ, and so do methods or paths. */
  ghost predicate RoutesDiffer(ops: seq<APIOperation>) {
    forall i, j :: 0 <= i < j < |ops| ==>
      && Trim(ops[i].operationId) != Trim(ops[j].operationId)
      && (ToUpper(Trim(ops[i].method_)) != ToUpper(Trim(ops[j].method_)) || Trim(ops[i].path) != Trim(ops[j].path))
  }

  ghost predicate OperationAllowed(own: set<string>, op: APIOperation) { exists n :: DeclaresOperation(own, op, n) }

  lemma OperationAllowedIff(own: set<string>, op: APIOperation)
    ensures OperationAllowed(own, op) <==> NormOperation(own, op).Some?
  {
    if NormOperation(own, op).Some? { OperationIff(own, op, NormOperation(own, op).value); }
    if n :| DeclaresOperation(own, op, n) { OperationIff(own, op, n); }
  }

  lemma OperationsAcceptedIff(own: set<string>, ops: seq<APIOperation>)
    ensures NormOperations(own, ops).Some? <==>
      RoutesDiffer(ops) && forall op :: op in ops ==> OperationAllowed(own, op)
  {
    var f := op => NormOperation(own, op);
    NormAllEach(f, ops);
    forall op ensures OperationAllowed(own, op) <==> f(op).Some? { OperationAllowedIff(own, op); }
    if NormAll(f, ops).Some? { RoutesDifferIff(own, ops, NormAll(f, ops).value); }
  }

  lemma RoutesDifferIff(own: set<string>, ops: seq<APIOperation>, each: seq<APIOperation>)
    requires |each| == |ops| && forall i :: 0 <= i < |ops| ==> NormOperation(own, ops[i]) == Some(each[i])
    ensures DistinctRoutes(each) <==> RoutesDiffer(ops)
  {
    forall i | 0 <= i < |ops|
      ensures each[i].operationId == Trim(ops[i].operationId) && each[i].path == Trim(ops[i].path)
        && each[i].method_ == ToUpper(Trim(ops[i].method_))
    {
      OperationIff(own, ops[i], each[i]);
    }
  }

  // ---------------------------------------------------------------- the schema

  /** The entity half. */
  ghost predicate EntitiesAllowed(s: Schema) {
    if s.version == 2 then ListAllowed(s.entities) && forall i :: 0 <= i < |s.entities| ==> EntityAllowed(s.entities[i])
    else EntityAllowed(s.entity)
  }

  ghost predicate EntityAllowed(e: Entity) { exists n :: DeclaresEntity(e, n) }

  lemma EntityAllowedIff(e: Entity)
    ensures EntityAllowed(e) <==> NormEntity(e).Some?
  {
    if NormEntity(e).Some? { EntityIff(e, NormEntity(e).value); }
    if n :| DeclaresEntity(e, n) { EntityIff(e, n); }
  }

  lemma EntityPartIff(s: Schema)
    ensures NormEntityPart(s).Some? <==> EntitiesAllowed(s)
  {
    if s.version == 2 {
      EntityListIff(s.entities);
    } else {
      EntityAllowedIff(s.entity);
    }
  }

  lemma EntityListIff(es: seq<Entity>)
    ensures NormEntities(es).Some? <==> ListAllowed(es) && forall i :: 0 <= i < |es| ==> EntityAllowed(es[i])
    ensures NormEntities(es).Some? ==> PrimaryOf(NormEntities(es).value).Some?
  {
    EntitiesAcceptedIff(es);
    forall e ensures EntityAllowed(e) <==> NormEntity(e).Some? { EntityAllowedIff(e); }
    if NormEntities(es).Some? {
      NormEntitiesSettles(es);
      PrimaryOfCorrect(NormEntities(es).value);
    }
  }

  /** The responses the schema defines itself. */
  ghost function OwnResponses(s: Schema): set<string> {
    set g, n | g in s.components && g == "responses" && n in s.components[g] :: n
  }

  ghost predicate ApiAllowed(s: Schema) {
    && ComponentsAllowed(s.components)
    && CrudAllowed(s.crud)
    && PermissionNamesDiffer(s.permissions) && (forall p :: p in s.permissions ==> PermissionAllowed(p))
    && RoutesDiffer(s.operations)
    && forall op :: op in s.operations ==> OperationAllowed(OwnResponses(s), op)
  }

  ghost predicate ComponentsAllowed(components: map<string, set<string>>) {
    && components.Keys <= {"schemas", "responses"}
    && forall g, n :: g in components && n in components[g] ==> TypeName(n)
  }

  ghost predicate CrudAllowed(written: seq<string>) { exists crud :: DeclaresCrud(written, crud) }

  lemma CrudAllowedIff(written: seq<string>)
    ensures CrudAllowed(written) <==> NormCrud(written).Some?
  {
    if NormCrud(written).Some? { CrudIff(written, NormCrud(written).value); }
    if crud :| DeclaresCrud(written, crud) { CrudIff(written, crud); }
  }

  lemma ApiPartIff(s: Schema)
    ensures NormApiPart(s).Some? <==> ApiAllowed(s)
  {
    CrudAllowedIff(s.crud);
    PermissionsAcceptedIff(s.permissions);
    OperationsAcceptedIff(ResponseNames(s.components), s.operations);
    assert OwnResponses(s) == ResponseNames(s.components);
    ComponentsIff(s.components);
  }

  lemma ComponentsIff(components: map<string, set<string>>)
    ensures ComponentsAllowed(components) <==> ComponentsOk(components)
  {
    if ComponentsOk(components) {
      forall g | g in components ensures g in {"schemas", "responses"} {}
    }
  }

  /** A schema is accepted exactly when its version is 1 or 2, its module is a package name, and its
      entities, components, CRUD names, permissions and operations are as they must be. */
  lemma SchemaAcceptedIff(s: Schema)
    ensures NormSchema(s).Some? <==>
      (s.version == 1 || s.version == 2) && PackageName(Trim(s.module_)) && EntitiesAllowed(s) && ApiAllowed(s)
  {
    var t := s.(module_ := Trim(s.module_));
    EntityPartIff(t);
    ApiPartIff(s);
    if NormEntityPart(t).Some? { ApiPartIgnores(s, NormEntityPart(t).value); }
  }

  lemma ApiPartIgnores(s: Schema, e: Schema)
    requires e == s.(module_ := e.module_, entity := e.entity, entities := e.entities)
    ensures NormApiPart(e).Some? <==> NormApiPart(s).Some?
  {
  }

  /** What an accepted schema becomes. */
  ghost predicate EntitiesBecame(s: Schema, n: Schema) {
    if s.version == 2 then
      && (exists es, p :: DeclaresList(s.entities, es) && IsLeastOrder(es, p) && n.entities == Pick(es, p))
      && n.entity in n.entities && n.entity.primary
    else DeclaresEntity(s.entity, n.entity) && n.entities == s.entities
  }

  ghost predicate ApiBecame(s: Schema, n: Schema) {
    && n.components == s.components && DeclaresCrud(s.crud, n.crud) && RoutesIncrease(n.operations)
    && OperationsDeclared(OwnResponses(s), s.operations, n.operations)
    && (if s.operations == [] then PermissionsDeclared(s.permissions, n.permissions) && NamesIncrease(n.permissions)
        else n.permissions == Derivation.Derived(n.operations))
  }

  lemma SchemaBecomes(s: Schema)
    requires NormSchema(s).Some?
    ensures var n := NormSchema(s).value;
      n.version == s.version && n.module_ == Trim(s.module_) && EntitiesBecame(s, n) && ApiBecame(s, n)
  {
    var t := s.(module_ := Trim(s.module_));
    var e, n := NormEntityPart(t).value, NormSchema(s).value;
    SchemaFrame(s, e, n);
    EntityPartBecomes(t);
    ApiPartBecomes(e);
    SameEntities(s, t, e, n);
    SameApi(s, e, n);
  }

  lemma SchemaFrame(s: Schema, e: Schema, n: Schema)
    requires NormEntityPart(s.(module_ := Trim(s.module_))) == Some(e) && NormSchema(s) == Some(n)
    ensures NormApiPart(e) == Some(n) && n.version == s.version && n.module_ == Trim(s.module_)
    ensures n.entity == e.entity && n.entities == e.entities
    ensures e == s.(module_ := e.module_, entity := e.entity, entities := e.entities)
  {
  }

  lemma SameEntities(s: Schema, t: Schema, e: Schema, n: Schema)
    requires EntitiesBecame(t, e) && t.version == s.version && t.entity == s.entity && t.entities == s.entities
    requires n.entity == e.entity && n.entities == e.entities
    ensures EntitiesBecame(s, n)
  {
  }

  lemma SameApi(s: Schema, e: Schema, n: Schema)
    requires ApiBecame(e, n) && e.crud == s.crud && e.permissions == s.permissions && e.operations == s.operations
    requires e.components == s.components
    ensures ApiBecame(s, n)
  {
    assert OwnResponses(e) == OwnResponses(s);
  }

  lemma EntityPartBecomes(s: Schema)
    requires NormEntityPart(s).Some?
    ensures EntitiesBecame(s, NormEntityPart(s).value)
  {
    if s.version == 2 {
      EntitiesBecome(s.entities);
      PrimaryOfCorrect(NormEntities(s.entities).value);
    } else {
      EntityIff(s.entity, NormEntity(s.entity).value);
    }
  }

  lemma ApiPartBecomes(s: Schema)
    requires NormApiPart(s).Some?
    ensures ApiBecame(s, NormApiPart(s).value)
  {
    var own := ResponseNames(s.components);
    CrudIff(s.crud, NormCrud(s.crud).value);
    PermissionsBecome(s.permissions);
    OperationsBecome(own, s.operations);
    OperationCount(own, s.operations);
    assert OwnResponses(s) == own;
  }

  lemma OperationCount(own: set<string>, ops: seq<APIOperation>)
    requires NormOperations(own, ops).Some?
    ensures |NormOperations(own, ops).value| == |ops|
  {
    var each := NormAll(op => NormOperation(own, op), ops).value;
    NormAllEach(op => NormOperation(own, op), ops);
    SortIsPermutation(RouteLe, each);
    assert |multiset(Sort(RouteLe, each))| == |multiset(each)|;
  }
}
