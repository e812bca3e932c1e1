/** The persisted RBAC state and what each database transaction of the permission and user services
    does to it.  Transactions are serialised: each is one step, and one that fails changes nothing.

    Two notions of equality meet here.  The tables `roles` and `casbin_rule` have a collation that
    equates texts differing in case, accents or width, and SQL conditions and unique indexes compare
    by it; the service and the enforcer compare exactly.  Any collation `fold` will do, as long as it
    tells the service's own lower-case text apart (`IsCollation`).  The columns `ptype` and `v0` only
    ever hold such text, so for them both notions agree (`RbacSafety.OwnColumnsAreLower`). */
module Rbac {
  import opened Text
  import opened Uniques
  import opened PolicyRules

  const SUPER_ADMIN := "super_admin"
  const GUEST := "guest"
  const MEMBER := "member"

  datatype Status = Active | Disabled
  datatype Account = Account(status: Status, version: nat)
  datatype Role = Role(name: string, builtin: bool)

  /** Tables: `users`, `roles`, `casbin_rule` (unique over its columns, with the managed flag) and
      the versions in `permission_policy_outbox`, in order of insertion.  `nextUser` and `nextRole`
      are the auto-increment counters. */
  datatype Db = Db(users: map<nat, Account>, nextUser: nat, roles: map<nat, Role>, nextRole: nat,
                   rules: map<Rule, bool>, outbox: seq<string>, fold: Collation)

  /** One entry of a permission replacement request. */
  datatype Grant = Grant(path: string, methods: seq<string>)

  /** Generated manifests: path and method expression of the guest and member policies, and the
      catalogue of paths with their methods. */
  datatype Config = Config(guest: seq<(string, string)>, member: seq<(string, string)>,
                           catalog: map<string, set<string>>)

  datatype Base = Guest | Member

  datatype Outcome =
    Done | ManagedBaseRole | UnknownRole | LastSuperAdmin | RoleNotFound | BuiltinRole | RoleInUse
    | UserNotFound | InvalidRoleName | RoleExists | InvalidPermission | UnknownPermission | IdsExhausted
    | NameTooLong

  function BaseName(b: Base): string { if b.Guest? then GUEST else MEMBER }

  // ---------------------------------------------------------------- comparing text

  /** What a collation compares instead of a text: a representative of all the texts it equates, such
      as those that differ in case, accents or width only. */
  type Collation = string -> string

  /** Lower-case letters, digits, underscores and colons: the text of role names and subjects. */
  predicate OwnText(s: string) {
    forall i :: 0 <= i < |s| ==> IsLower(s[i]) || IsDigit(s[i]) || s[i] == '_' || s[i] == ':'
  }

  /** The text of method expressions. */
  predicate MethodText(s: string) { forall i :: 0 <= i < |s| ==> IsUpper(s[i]) || s[i] in {'(', '|', ')'} }

  /** What is assumed of the collation: such texts represent themselves, and different method
      expressions are different. */
  ghost predicate IsCollation(fold: Collation) {
    && (forall s {:trigger OwnText(s)} :: OwnText(s) ==> fold(s) == s)
    && (forall a, b {:trigger MethodText(a), MethodText(b)} ::
          MethodText(a) && MethodText(b) && fold(a) == fold(b) ==> a == b)
  }

  /** Ignoring the case of ASCII letters is one such collation. */
  lemma ToLowerIsCollation()
    ensures IsCollation(ToLower)
  {
    forall s | OwnText(s) ensures ToLower(s) == s {}
    forall a, b | MethodText(a) && MethodText(b) && ToLower(a) == ToLower(b) ensures a == b {
      assert |a| == |ToLower(a)| == |ToLower(b)| == |b|;
      forall i | 0 <= i < |a| ensures a[i] == b[i] {
        assert LowerChar(a[i]) == ToLower(a)[i] == ToLower(b)[i] == LowerChar(b[i]);
      }
    }
  }

  function FoldSet(fold: Collation, names: set<string>): set<string> { set n | n in names :: fold(n) }

  predicate FoldsApart(fold: Collation, names: set<string>) {
    forall a, b :: a in names && b in names && fold(a) == fold(b) ==> a == b
  }

  // ---------------------------------------------------------------- reading the state

  function RoleNames(db: Db): set<string> { set id | id in db.roles :: db.roles[id].name }

  predicate AssignsTo(r: Rule, user: nat) { r.ptype == "g" && r.v0 == Subject(user) }

  /** Direct roles of a user, as stored. */
  function RolesOf(rules: map<Rule, bool>, user: nat): set<string> {
    set r | r in rules && AssignsTo(r, user) :: r.v1
  }

  /** SQL finds the role among the user's, in some spelling. */
  predicate SqlHolds(fold: Collation, rules: map<Rule, bool>, user: nat, name: string) {
    fold(name) in FoldSet(fold, RolesOf(rules, user))
  }

  predicate IsActive(db: Db, user: nat) { user in db.users && db.users[user].status.Active? }

  /** A super administrator as the enforcer sees it. */
  predicate ActiveAdmin(db: Db, user: nat) { IsActive(db, user) && SUPER_ADMIN in RolesOf(db.rules, user) }

  /** One that the SQL guards count. */
  predicate SqlActiveAdmin(db: Db, user: nat) { IsActive(db, user) && SqlHolds(db.fold, db.rules, user, SUPER_ADMIN) }

  ghost predicate OtherActiveAdmin(db: Db, user: nat) { exists u: nat :: u != user && ActiveAdmin(db, u) }
  ghost predicate OtherSqlAdmin(db: Db, user: nat) { exists u: nat :: u != user && SqlActiveAdmin(db, u) }
  ghost predicate HasActiveAdmin(db: Db) { exists u: nat :: ActiveAdmin(db, u) }

  function BaseOf(rules: map<Rule, bool>, user: nat): Base { if MEMBER in RolesOf(rules, user) then Member else Guest }

  /** The policies of a role. */
  function PoliciesOf(rules: map<Rule, bool>, role: string): set<Rule> {
    set r | r in rules && r.ptype == "p" && r.v0 == role
  }

  function Manifest(c: Config, b: Base): (rows: seq<Rule>)
    ensures forall r :: r in rows ==> r.ptype == "p" && r.v0 == BaseName(b)
  {
    PolicyRows(BaseName(b), if b.Guest? then c.guest else c.member)
  }

  function PolicyRows(role: string, entries: seq<(string, string)>): (rows: seq<Rule>)
    ensures |rows| == |entries|
    ensures forall i :: 0 <= i < |rows| ==> rows[i] == Policy(role, entries[i].0, entries[i].1)
  {
    seq(|entries|, i requires 0 <= i < |entries| => Policy(role, entries[i].0, entries[i].1))
  }

  // ---------------------------------------------------------------- changing tables

  /** Two rows the unique index takes for the same. */
  predicate SameKey(fold: Collation, a: Rule, b: Rule) {
    && a.ptype == b.ptype && a.v0 == b.v0 && fold(a.v1) == fold(b.v1) && fold(a.v2) == fold(b.v2)
    && fold(a.v3) == fold(b.v3) && fold(a.v4) == fold(b.v4) && fold(a.v5) == fold(b.v5)
  }

  predicate Clashes(fold: Collation, rules: map<Rule, bool>, row: Rule) {
    exists r :: r in rules && SameKey(fold, r, row)
  }

  /** INSERT … ON CONFLICT DO NOTHING of one row. */
  function InsertRow(fold: Collation, rules: map<Rule, bool>, row: Rule, managed: bool): map<Rule, bool> {
    if Clashes(fold, rules, row) then rules else rules[row := managed]
  }

  /** No row before it in the list has its key. */
  predicate FirstOfKey(fold: Collation, rows: seq<Rule>, i: nat)
    requires i < |rows|
  {
    forall j :: 0 <= j < i ==> !SameKey(fold, rows[j], rows[i])
  }

  /** Of several rows: those that are the first of their key and clash with nothing stored. */
  function NewRows(fold: Collation, rules: map<Rule, bool>, rows: seq<Rule>): set<Rule> {
    set i | 0 <= i < |rows| && FirstOfKey(fold, rows, i) && !Clashes(fold, rules, rows[i]) :: rows[i]
  }

  lemma {:induction false} FirstExists(fold: Collation, rows: seq<Rule>, i: nat) returns (k: nat)
    requires i < |rows|
    ensures k <= i && FirstOfKey(fold, rows, k) && SameKey(fold, rows[k], rows[i])
    decreases i
  {
    if FirstOfKey(fold, rows, i) {
      k := i;
    } else {
      var j :| 0 <= j < i && SameKey(fold, rows[j], rows[i]);
      k := FirstExists(fold, rows, j);
    }
  }

  function AddRules(rules: map<Rule, bool>, rows: set<Rule>, managed: bool): map<Rule, bool> {
    map r | r in rules.Keys + rows :: if r in rules then rules[r] else managed
  }

  function InsertRules(fold: Collation, rules: map<Rule, bool>, rows: seq<Rule>, managed: bool): map<Rule, bool> {
    AddRules(rules, NewRows(fold, rules, rows), managed)
  }

  function WithoutAssignments(rules: map<Rule, bool>, user: nat): map<Rule, bool> {
    map r | r in rules && !AssignsTo(r, user) :: rules[r]
  }

  predicate SqlBaseName(fold: Collation, name: string) { fold(name) == fold(GUEST) || fold(name) == fold(MEMBER) }

  function WithoutBase(fold: Collation, rules: map<Rule, bool>, user: nat): map<Rule, bool> {
    map r | r in rules && !(AssignsTo(r, user) && SqlBaseName(fold, r.v1)) :: rules[r]
  }

  function WithoutPolicies(rules: map<Rule, bool>, role: string): map<Rule, bool> {
    map r | r in rules && !(r.ptype == "p" && r.v0 == role) :: rules[r]
  }

  function WithoutManaged(rules: map<Rule, bool>, role: string): map<Rule, bool> {
    map r | r in rules && !(r.ptype == "p" && r.v0 == role && rules[r]) :: rules[r]
  }

  function Groupings(user: nat, names: set<string>): set<Rule> { set n | n in names :: Grouping(user, n) }

  /** session_version + 1 for the given users. */
  function Bumped(users: map<nat, Account>, ids: set<nat>): map<nat, Account> {
    map u | u in users :: if u in ids then users[u].(version := users[u].version + 1) else users[u]
  }

  /** The role exists and is built in; other roles keep their rows. */
  function WithBuiltin(db: Db, name: string): Db {
    if name in RoleNames(db) then
      db.(roles := map id | id in db.roles :: if db.roles[id].name == name then Role(name, true) else db.roles[id])
    else db.(roles := db.roles[db.nextRole := Role(name, true)], nextRole := db.nextRole + 1)
  }

  function Recorded(db: Db, version: string): Db { db.(outbox := db.outbox + [version]) }

  // ---------------------------------------------------------------- operations

  /** What the row count of `name IN (…)` tells (`RbacStore.CountMeansKnown`): every name is that of
      a role in some spelling, and no two names are spellings of one role. */
  predicate Known(db: Db, names: set<string>) { FoldSet(db.fold, names) <= RoleNames(db) && FoldsApart(db.fold, names) }

  ghost function RolesOutcome(db: Db, user: nat, roles: seq<string>): Outcome {
    var requested := Unique(roles);
    if GUEST in requested || MEMBER in requested then ManagedBaseRole
    else if !Known(db, WantedRoles(db, user, roles)) then UnknownRole
    else if SUPER_ADMIN in RolesOf(db.rules, user) && SUPER_ADMIN !in requested
        && !OtherSqlAdmin(db, user) then LastSuperAdmin
    else if !Fits(WantedRoles(db, user, roles)) then NameTooLong
    else Done
  }

  const COLUMN_CHARS := 100

  /** The rows with these names can be inserted. */
  predicate Fits(names: set<string>) { forall n :: n in names ==> |n| <= COLUMN_CHARS }

  function WantedRoles(db: Db, user: nat, roles: seq<string>): set<string> {
    (set n | n in Unique(roles)) + {BaseName(BaseOf(db.rules, user))}
  }

  function RolesReplaced(db: Db, user: nat, names: set<string>, version: string): Db {
    Recorded(db.(rules := AddRules(WithoutAssignments(db.rules, user), Groupings(user, names), false),
                 users := Bumped(db.users, {user})), version)
  }

  ghost function DisableOutcome(db: Db, user: nat): Outcome {
    if SqlHolds(db.fold, db.rules, user, SUPER_ADMIN) && !OtherSqlAdmin(db, user) then LastSuperAdmin
    else if user !in db.users then UserNotFound
    else Done
  }

  function StatusSet(db: Db, user: nat, status: Status): Db
    requires user in db.users
  {
    db.(users := db.users[user := Account(status, db.users[user].version + 1)])
  }

  predicate RoleChar(c: char) { IsLower(c) || IsDigit(c) || c == '_' }

  /** `^[a-z][a-z0-9_]{2,63}$` */
  predicate ValidRoleName(name: string) {
    3 <= |name| <= 64 && IsLower(name[0]) && forall i :: 1 <= i < |name| ==> RoleChar(name[i])
  }

  function CreateRoleOutcome(db: Db, name: string): Outcome {
    if !ValidRoleName(Trim(name)) then InvalidRoleName
    else if Trim(name) in RoleNames(db) then RoleExists
    else Done
  }

  function RoleCreated(db: Db, name: string, builtin: bool): Db {
    db.(roles := db.roles[db.nextRole := Role(Trim(name), builtin)], nextRole := db.nextRole + 1)
  }

  predicate InUse(fold: Collation, rules: map<Rule, bool>, name: string) {
    exists r :: r in rules && r.ptype == "g" && fold(r.v1) == fold(name)
  }

  function DeleteOutcome(db: Db, role: nat): Outcome {
    if role !in db.roles then RoleNotFound
    else if db.roles[role].builtin then BuiltinRole
    else if InUse(db.fold, db.rules, db.roles[role].name) then RoleInUse
    else Done
  }

  function RoleDeleted(db: Db, role: nat, version: string): Db
    requires role in db.roles
  {
    Recorded(db.(rules := WithoutPolicies(db.rules, db.roles[role].name), roles := db.roles - {role}), version)
  }

  const API_PREFIX := "/api/v1/"

  /** The first method that is not acceptable decides. */
  function MethodsOutcome(c: Config, path: string, methods: seq<string>): Outcome {
    if methods == [] then Done
    else if !HttpMethod(methods[0]) then InvalidPermission
    else if !(path in c.catalog && methods[0] in c.catalog[path]) then UnknownPermission
    else MethodsOutcome(c, path, methods[1..])
  }

  function GrantOutcome(c: Config, g: Grant): Outcome {
    if !(API_PREFIX <= g.path) || UniqueUpper(g.methods) == [] then InvalidPermission
    else MethodsOutcome(c, g.path, UniqueUpper(g.methods))
  }

  function GrantsOutcome(c: Config, grants: seq<Grant>): Outcome {
    if grants == [] then Done
    else if GrantOutcome(c, grants[0]) != Done then GrantOutcome(c, grants[0])
    else GrantsOutcome(c, grants[1..])
  }

  function GrantRule(role: string, g: Grant): Rule {
    Policy(role, g.path, if UniqueUpper(g.methods) == [] then "" else Expression(UniqueUpper(g.methods)))
  }

  function GrantRules(role: string, grants: seq<Grant>): (rows: seq<Rule>)
    ensures |rows| == |grants| && forall i :: 0 <= i < |rows| ==> rows[i] == GrantRule(role, grants[i])
  {
    seq(|grants|, i requires 0 <= i < |grants| => GrantRule(role, grants[i]))
  }

  function PermissionsOutcome(c: Config, db: Db, role: nat, grants: seq<Grant>): Outcome {
    if GrantsOutcome(c, grants) != Done then GrantsOutcome(c, grants)
    else if role !in db.roles then RoleNotFound
    else if db.roles[role].builtin then BuiltinRole
    else Done
  }

  /** Users whose assignment of the role, in any spelling, can be parsed. */
  function Holders(fold: Collation, rules: map<Rule, bool>, name: string): set<nat> {
    set r | r in rules && r.ptype == "g" && fold(r.v1) == fold(name) && AssignedId(r).Some? :: AssignedId(r).value
  }

  function PermissionsSet(db: Db, role: nat, grants: seq<Grant>, version: string): Db
    requires role in db.roles
  {
    var name := db.roles[role].name;
    Recorded(db.(rules := InsertRules(db.fold, WithoutPolicies(db.rules, name), GrantRules(name, grants), false),
                 users := Bumped(db.users, Holders(db.fold, db.rules, name))), version)
  }

  function BuiltinEnsured(c: Config, db: Db, b: Base, version: string): Db {
    var with := WithBuiltin(db, BaseName(b));
    Recorded(with.(rules := InsertRules(db.fold, WithoutManaged(db.rules, BaseName(b)), Manifest(c, b), true)), version)
  }

  function BaseEnsured(c: Config, db: Db, user: nat, b: Base, version: string): Db {
    var with := BuiltinEnsured(c, db, b, version);
    with.(rules := AddRules(WithoutBase(db.fold, with.rules, user), {Grouping(user, BaseName(b))}, false))
  }

  const ADMIN_POLICY: Rule := Policy(SUPER_ADMIN, "/api/v1/*", ".*")

  function AdminGranted(db: Db, user: nat, version: string): Db {
    var with := if SUPER_ADMIN in RoleNames(db) then db else WithBuiltin(db, SUPER_ADMIN);
    var mid := InsertRow(db.fold, db.rules, ADMIN_POLICY, true);
    var rules := InsertRow(db.fold, mid, Grouping(user, SUPER_ADMIN), false);
    Recorded(with.(rules := rules), version)
  }

  function UserCreated(db: Db): Db {
    db.(users := db.users[db.nextUser := Account(Active, 1)], nextUser := db.nextUser + 1)
  }

  // ---------------------------------------------------------------- steps and runs

  datatype Op =
    | SetUserRoles(user: nat, roles: seq<string>)
    | DisableUser(user: nat)
    | EnableUser(user: nat)
    | ChangePassword(user: nat)
    | CreateRole(name: string, builtin: bool)
    | DeleteRole(role: nat)
    | SetPermissions(role: nat, grants: seq<Grant>)
    | EnsureBuiltin(base: Base)
    | EnsureBase(user: nat, base: Base)
    | GrantSuperAdmin(user: nat)
    | CreateUser
    | CreateGuestUser

  ghost function OutcomeOf(c: Config, db: Db, op: Op): Outcome {
    match op
    case SetUserRoles(user, roles) => RolesOutcome(db, user, roles)
    case DisableUser(user) => DisableOutcome(db, user)
    case EnableUser(user) => if user in db.users then Done else UserNotFound
    case ChangePassword(user) => if user in db.users then Done else UserNotFound
    case CreateRole(name, _) => CreateRoleOutcome(db, name)
    case DeleteRole(role) => DeleteOutcome(db, role)
    case SetPermissions(role, grants) => PermissionsOutcome(c, db, role, grants)
    case EnsureBuiltin(_) => Done
    case EnsureBase(_, _) => Done
    case GrantSuperAdmin(_) => Done
    case CreateUser => if db.nextUser <= MAX_UINT64 then Done else IdsExhausted
    case CreateGuestUser => if db.nextUser <= MAX_UINT64 then Done else IdsExhausted
  }

  /** One transaction; `version` is the identifier drawn for its outbox row. */
  ghost function Apply(c: Config, db: Db, op: Op, version: string): Db {
    if OutcomeOf(c, db, op) != Done then db
    else
      match op
      case SetUserRoles(user, roles) => RolesReplaced(db, user, WantedRoles(db, user, roles), version)
      case DisableUser(user) => StatusSet(db, user, Disabled)
      case EnableUser(user) => StatusSet(db, user, Active)
      case ChangePassword(user) => StatusSet(db, user, db.users[user].status)
      case CreateRole(name, builtin) => RoleCreated(db, name, builtin)
      case DeleteRole(role) => RoleDeleted(db, role, version)
      case SetPermissions(role, grants) => PermissionsSet(db, role, grants, version)
      case EnsureBuiltin(b) => BuiltinEnsured(c, db, b, version)
      case EnsureBase(user, b) => BaseEnsured(c, db, user, b, version)
      case GrantSuperAdmin(user) => AdminGranted(db, user, version)
      case CreateUser => UserCreated(db)
      case CreateGuestUser => BaseEnsured(c, UserCreated(db), db.nextUser, Guest, version)
  }

  datatype Call = Call(op: Op, version: string)

  ghost function Run(c: Config, db: Db, calls: seq<Call>): Db
    decreases |calls|
  {
    if calls == [] then db else Run(c, Apply(c, db, calls[0].op, calls[0].version), calls[1..])
  }

  // ---------------------------------------------------------------- the invariant

  ghost predicate IsGrouping(r: Rule) { exists u: nat :: r == Grouping(u, r.v1) }

  /** A p rule names an existing role, a g rule some spelling of one. */
  ghost predicate RuleOk(fold: Collation, names: set<string>, r: Rule) {
    (r.ptype == "p" && r.v0 in names) || (IsGrouping(r) && fold(r.v1) in names)
  }

  ghost predicate RulesOk(db: Db) { forall r :: r in db.rules ==> RuleOk(db.fold, RoleNames(db), r) }

  /** Every rule names an existing role exactly: what the enforcer needs. */
  ghost predicate Exact(db: Db) { forall r :: r in db.rules && r.ptype == "g" ==> r.v1 in RoleNames(db) }

  ghost predicate UniqueNames(roles: map<nat, Role>) {
    forall a, b :: a in roles && b in roles && roles[a].name == roles[b].name ==> a == b
  }

  /** Role names match the pattern that `CreateRole` checks, so they represent themselves. */
  ghost predicate ValidNames(roles: map<nat, Role>) { forall id :: id in roles ==> ValidRoleName(roles[id].name) }

  ghost predicate OneBase(rules: map<Rule, bool>) {
    forall u: nat :: !(GUEST in RolesOf(rules, u) && MEMBER in RolesOf(rules, u))
  }

  ghost predicate UsersOk(db: Db) {
    forall u :: u in db.users ==> 0 < u <= MAX_UINT64 && u < db.nextUser && db.users[u].version >= 1
  }

  ghost predicate RolesOk(db: Db) {
    UniqueNames(db.roles) && ValidNames(db.roles) && forall id :: id in db.roles ==> id < db.nextRole
  }

  ghost predicate Inv(db: Db) {
    IsCollation(db.fold) && db.nextUser > 0 && UsersOk(db) && RolesOk(db) && RulesOk(db) && OneBase(db.rules)
  }

  function Empty(fold: Collation): Db { Db(map[], 1, map[], 1, map[], [], fold) }

  lemma EmptyInv(fold: Collation)
    requires IsCollation(fold)
    ensures Inv(Empty(fold)) && Exact(Empty(fold))
  {
  }

  lemma NamesDiffer()
    ensures GUEST != MEMBER && GUEST != SUPER_ADMIN && MEMBER != SUPER_ADMIN
  {
    assert |GUEST| == 5 && |MEMBER| == 6 && |SUPER_ADMIN| == 11;
  }

  /** A valid role name is what the collation makes of it. */
  lemma ValidNameFolds(fold: Collation, name: string)
    requires IsCollation(fold) && ValidRoleName(name)
    ensures fold(name) == name
  {
    forall i | 0 <= i < |name| ensures IsLower(name[i]) || IsDigit(name[i]) || name[i] == '_' {
      assert i == 0 || RoleChar(name[i]);
    }
    assert OwnText(name);
  }

  lemma GuestIsValid()
    ensures ValidRoleName(GUEST)
  {
  }

  lemma MemberIsValid()
    ensures ValidRoleName(MEMBER)
  {
  }

  lemma SuperAdminIsValid()
    ensures ValidRoleName(SUPER_ADMIN)
  {
  }

  /** The names the service itself uses are valid, hence represent themselves. */
  lemma OwnNamesFold(fold: Collation)
    requires IsCollation(fold)
    ensures ValidRoleName(GUEST) && ValidRoleName(MEMBER) && ValidRoleName(SUPER_ADMIN)
    ensures fold(GUEST) == GUEST && fold(MEMBER) == MEMBER && fold(SUPER_ADMIN) == SUPER_ADMIN
  {
    GuestIsValid();
    MemberIsValid();
    SuperAdminIsValid();
    ValidNameFolds(fold, GUEST);
    ValidNameFolds(fold, MEMBER);
    ValidNameFolds(fold, SUPER_ADMIN);
  }

  // ---------------------------------------------------------------- what the table changes mean

  lemma AssignsToGrouping(user: nat, name: string, u: nat)
    ensures AssignsTo(Grouping(user, name), u) <==> user == u
  {
    if Subject(user) == Subject(u) { SubjectInjective(user, u); }
  }

  lemma RolesOfGroupings(user: nat, names: set<string>, rules: map<Rule, bool>, u: nat)
    ensures RolesOf(AddRules(rules, Groupings(user, names), false), u)
         == RolesOf(rules, u) + if u == user then names else {}
  {
    var after := AddRules(rules, Groupings(user, names), false);
    forall n ensures n in RolesOf(after, u) <==> n in RolesOf(rules, u) || (u == user && n in names) {
      if n in RolesOf(after, u) && n !in RolesOf(rules, u) {
        var r :| r in after && AssignsTo(r, u) && r.v1 == n;
        var m :| m in names && r == Grouping(user, m);
        AssignsToGrouping(user, m, u);
      }
      if u == user && n in names {
        AssignsToGrouping(user, n, u);
        assert Grouping(user, n) in after;
      }
      if n in RolesOf(rules, u) {
        var r :| r in rules && AssignsTo(r, u) && r.v1 == n;
        assert r in after;
      }
    }
  }

  lemma RolesOfWithoutAssignments(rules: map<Rule, bool>, user: nat, u: nat)
    ensures RolesOf(WithoutAssignments(rules, user), u) == if u == user then {} else RolesOf(rules, u)
  {
    if u != user {
      forall n | n in RolesOf(rules, u) ensures n in RolesOf(WithoutAssignments(rules, user), u) {
        var r :| r in rules && AssignsTo(r, u) && r.v1 == n;
        if AssignsTo(r, user) { SubjectInjective(u, user); }
        assert r in WithoutAssignments(rules, user);
      }
    }
  }

  function BasesIn(fold: Collation, names: set<string>): set<string> { set n | n in names && SqlBaseName(fold, n) }

  lemma RolesOfWithoutBase(fold: Collation, rules: map<Rule, bool>, user: nat, u: nat)
    ensures RolesOf(WithoutBase(fold, rules, user), u)
         == RolesOf(rules, u) - if u == user then BasesIn(fold, RolesOf(rules, u)) else {}
  {
    var after := WithoutBase(fold, rules, user);
    forall n | n in RolesOf(rules, u) && !(u == user && SqlBaseName(fold, n)) ensures n in RolesOf(after, u) {
      var r :| r in rules && AssignsTo(r, u) && r.v1 == n;
      if AssignsTo(r, user) { SubjectInjective(u, user); }
      assert r in after;
    }
  }

  /** Tables that agree on grouping rows give every user the same roles. */
  lemma SameGroupings(a: map<Rule, bool>, b: map<Rule, bool>, u: nat)
    requires forall r: Rule :: r.ptype == "g" ==> (r in a <==> r in b)
    ensures RolesOf(a, u) == RolesOf(b, u)
  {
    forall n ensures n in RolesOf(a, u) <==> n in RolesOf(b, u) {
      if n in RolesOf(a, u) { var r :| r in a && AssignsTo(r, u) && r.v1 == n; assert r in b; }
      if n in RolesOf(b, u) { var r :| r in b && AssignsTo(r, u) && r.v1 == n; assert r in a; }
    }
  }

  /** Roles after each transaction that touches assignments. */
  lemma RolesAfterReplacement(db: Db, user: nat, names: set<string>, version: string, u: nat)
    ensures RolesOf(RolesReplaced(db, user, names, version).rules, u) == if u == user then names
        else RolesOf(db.rules, u)
  {
    RolesOfWithoutAssignments(db.rules, user, u);
    RolesOfGroupings(user, names, WithoutAssignments(db.rules, user), u);
  }

  lemma BuiltinGroupings(c: Config, db: Db, b: Base, version: string)
    ensures forall r: Rule :: r.ptype == "g" ==> (r in BuiltinEnsured(c, db, b, version).rules <==> r in db.rules)
  {
  }

  lemma RolesAfterBuiltin(c: Config, db: Db, b: Base, version: string, u: nat)
    ensures RolesOf(BuiltinEnsured(c, db, b, version).rules, u) == RolesOf(db.rules, u)
  {
    BuiltinGroupings(c, db, b, version);
    SameGroupings(BuiltinEnsured(c, db, b, version).rules, db.rules, u);
  }

  lemma RolesAfterBase(c: Config, db: Db, user: nat, b: Base, version: string, u: nat)
    ensures RolesOf(BaseEnsured(c, db, user, b, version).rules, u) ==
            if u == user then RolesOf(db.rules, u) - BasesIn(db.fold, RolesOf(db.rules, u)) + {BaseName(b)}
                else RolesOf(db.rules, u)
  {
    var with := BuiltinEnsured(c, db, b, version);
    RolesAfterBuiltin(c, db, b, version, u);
    RolesOfWithoutBase(db.fold, with.rules, user, u);
    RolesOfGroupings(user, {BaseName(b)}, WithoutBase(db.fold, with.rules, user), u);
    assert Groupings(user, {BaseName(b)}) == {Grouping(user, BaseName(b))};
  }

  /** The user already holds the role in some spelling; then the insert is skipped. */
  predicate Spelled(fold: Collation, rules: map<Rule, bool>, user: nat, name: string) {
    Clashes(fold, rules, Grouping(user, name))
  }

  lemma RolesAfterGrant(db: Db, user: nat, version: string, u: nat)
    ensures RolesOf(AdminGranted(db, user, version).rules, u)
         == RolesOf(db.rules, u)
            + if u == user && !Spelled(db.fold, db.rules, user, SUPER_ADMIN) then {SUPER_ADMIN} else {}
  {
    var mid, row := InsertRow(db.fold, db.rules, ADMIN_POLICY, true), Grouping(user, SUPER_ADMIN);
    SameGroupings(mid, db.rules, u);
    assert Clashes(db.fold, mid, row) <==> Clashes(db.fold, db.rules, row) by { assert ADMIN_POLICY.ptype == "p"; }
    if !Clashes(db.fold, mid, row) {
      RolesOfGroupings(user, {SUPER_ADMIN}, mid, u);
      assert Groupings(user, {SUPER_ADMIN}) == {row};
      assert InsertRow(db.fold, mid, row, false) == AddRules(mid, {row}, false);
    }
  }
}
