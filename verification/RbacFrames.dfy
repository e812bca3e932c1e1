/** For every transaction: which rows it may remove or add, what is in their place afterwards, and which
    requests it accepts; and what therefore stays over every run. */
module RbacFrames {
  import opened Options
  import opened Text
  import opened Uniques
  import opened PolicyRules
  import opened Rbac
  import opened RbacSafety

  // ---------------------------------------------------------------- policy rows

  /** A policy of the role. */
  ghost predicate PolicyRow(r: Rule, role: string) { r.ptype == "p" && r.v0 == role }

  /** An assignment of a role to the user. */
  ghost predicate AssignmentRow(r: Rule, user: nat) { r.ptype == "g" && r.v0 == Subject(user) }

  /** A generated policy of the base role. */
  ghost predicate GeneratedRow(db: Db, r: Rule, b: Base) {
    PolicyRow(r, if b.Guest? then "guest" else "member") && (r in db.rules ==> db.rules[r])
  }

  /** The user's assignment of a base role, in some spelling. */
  ghost predicate BaseAssignment(db: Db, r: Rule, user: nat) {
    AssignmentRow(r, user) && (db.fold(r.v1) == "guest" || db.fold(r.v1) == "member")
  }

  /** The rows a transaction may remove or add. */
  ghost predicate MayTouch(db: Db, op: Op, r: Rule) {
    match op
    case SetUserRoles(user, _) => AssignmentRow(r, user)
    case DeleteRole(role) => role in db.roles && PolicyRow(r, db.roles[role].name)
    case SetPermissions(role, _) => role in db.roles && PolicyRow(r, db.roles[role].name)
    case EnsureBuiltin(b) => GeneratedRow(db, r, b)
    case EnsureBase(user, b) => GeneratedRow(db, r, b) || BaseAssignment(db, r, user)
    case CreateGuestUser => GeneratedRow(db, r, Guest) || BaseAssignment(db, r, db.nextUser)
    case GrantSuperAdmin(user) =>
      r !in db.rules && (r == Rule("p", "super_admin", "/api/v1/*", ".*", "", "", "")
                         || r == Rule("g", Subject(user), "super_admin", "", "", "", ""))
    case _ => false
  }

  /** In both tables with the same mark, or in neither. */
  ghost predicate SameRow(a: map<Rule, bool>, b: map<Rule, bool>, r: Rule) {
    (r in a <==> r in b) && (r in a && r in b ==> a[r] == b[r])
  }

  lemma BuiltinFrame(c: Config, db: Db, b: Base, version: string, r: Rule)
    requires !GeneratedRow(db, r, b)
    ensures SameRow(db.rules, BuiltinEnsured(c, db, b, version).rules, r)
  {
  }

  lemma BaseFrame(c: Config, db: Db, user: nat, b: Base, version: string, r: Rule)
    requires IsCollation(db.fold) && !GeneratedRow(db, r, b) && !BaseAssignment(db, r, user)
    ensures SameRow(db.rules, BaseEnsured(c, db, user, b, version).rules, r)
  {
    OwnNamesFold(db.fold);
    BuiltinFrame(c, db, b, version, r);
  }

  lemma GrantFrame(db: Db, user: nat, version: string, r: Rule)
    requires !MayTouch(db, GrantSuperAdmin(user), r)
    ensures SameRow(db.rules, AdminGranted(db, user, version).rules, r)
  {
    var mid := InsertRow(db.fold, db.rules, ADMIN_POLICY, true);
    InsertFrame(db.fold, db.rules, ADMIN_POLICY, true, r);
    InsertFrame(db.fold, mid, Grouping(user, SUPER_ADMIN), false, r);
  }

  lemma InsertFrame(fold: Collation, rules: map<Rule, bool>, row: Rule, managed: bool, r: Rule)
    requires r == row ==> r in rules
    ensures SameRow(rules, InsertRow(fold, rules, row, managed), r)
  {
    if r == row { assert SameKey(fold, row, row) && Clashes(fold, rules, row); }
  }

  /** Every other row is in the table exactly if it was before, and marked as it was. */
  lemma StepFrame(c: Config, db: Db, op: Op, version: string, r: Rule)
    requires IsCollation(db.fold) && !MayTouch(db, op, r)
    ensures SameRow(db.rules, Apply(c, db, op, version).rules, r)
  {
    if OutcomeOf(c, db, op) == Done {
      match op
      case EnsureBuiltin(b) => BuiltinFrame(c, db, b, version, r);
      case EnsureBase(user, b) => BaseFrame(c, db, user, b, version, r);
      case GrantSuperAdmin(user) => GrantFrame(db, user, version, r);
      case CreateGuestUser =>
        GuestStep(c, db, version);
        BaseFrame(c, UserCreated(db), db.nextUser, Guest, version, r);
      case SetUserRoles(user, roles) =>
      case DeleteRole(role) =>
      case SetPermissions(role, grants) =>
      case _ => AccountsKeepRules(c, db, op, version);
    }
  }

  // ---------------------------------------------------------------- what is in their place

  /** After an assignment the user's rows are one for each requested name and one for the base role the
      user had. */
  lemma AssignmentRows(c: Config, db: Db, user: nat, roles: seq<string>, version: string, r: Rule)
    requires OutcomeOf(c, db, SetUserRoles(user, roles)) == Done && AssignmentRow(r, user)
    ensures var after := Apply(c, db, SetUserRoles(user, roles), version);
      && (r in after.rules <==>
            r == Rule("g", Subject(user), r.v1, "", "", "", "")
            && (r.v1 in Unique(roles) || r.v1 == if "member" in RolesOf(db.rules, user) then "member" else "guest"))
      && (r in after.rules ==> !after.rules[r])
  {
    var names := WantedRoles(db, user, roles);
    assert AssignsTo(r, user);
    assert r in Groupings(user, names) <==> r.v1 in names && r == Grouping(user, r.v1);
  }

  /** After a replacement the role's policies are requested ones, none of them marked as generated. */
  lemma PermissionRows(c: Config, db: Db, role: nat, grants: seq<Grant>, version: string, r: Rule)
    requires OutcomeOf(c, db, SetPermissions(role, grants)) == Done && PolicyRow(r, db.roles[role].name)
    requires r in Apply(c, db, SetPermissions(role, grants), version).rules
    ensures !Apply(c, db, SetPermissions(role, grants), version).rules[r]
    ensures exists i :: 0 <= i < |grants| && r.v1 == grants[i].path
  {
    var name := db.roles[role].name;
    var rows := GrantRules(name, grants);
    assert r in NewRows(db.fold, WithoutPolicies(db.rules, name), rows);
    var i :| 0 <= i < |rows| && r == rows[i];
    assert r.v1 == grants[i].path;
  }

  /** The generated list of a base role: that of guests for guests, that of members for members. */
  ghost predicate OnList(c: Config, b: Base, r: Rule) {
    if b.Guest? then (r.v1, r.v2) in c.guest && r == Rule("p", "guest", r.v1, r.v2, "", "", "")
    else (r.v1, r.v2) in c.member && r == Rule("p", "member", r.v1, r.v2, "", "", "")
  }

  lemma ManifestIff(c: Config, b: Base, r: Rule)
    ensures r in Manifest(c, b) <==> OnList(c, b, r)
  {
    var entries, rows := if b.Guest? then c.guest else c.member, Manifest(c, b);
    if r in rows {
      var i :| 0 <= i < |rows| && rows[i] == r;
      assert (r.v1, r.v2) == entries[i];
    }
    if OnList(c, b, r) {
      var i :| 0 <= i < |entries| && entries[i] == (r.v1, r.v2);
      assert rows[i] == r;
    }
  }

  /** After reconciling, the generated policies of the base role are on its list; declared ones stay; and
      nothing on the list is missing that the unique index does not take for one of these. */
  lemma ReconciledRows(c: Config, db: Db, b: Base, version: string, r: Rule)
    requires PolicyRow(r, if b.Guest? then "guest" else "member")
    ensures var after := BuiltinEnsured(c, db, b, version).rules;
      && (r in after ==> (after[r] && OnList(c, b, r)) || (r in db.rules && !db.rules[r] && !after[r]))
      && (r in db.rules && !db.rules[r] ==> r in after && !after[r])
      && (OnList(c, b, r) ==> exists x :: x in after && SameKey(db.fold, x, r))
  {
    var before := WithoutManaged(db.rules, BaseName(b));
    var rows, after := Manifest(c, b), BuiltinEnsured(c, db, b, version).rules;
    ManifestIff(c, b, r);
    if r in after && r !in before { assert r in NewRows(db.fold, before, rows) && r in rows; }
    if OnList(c, b, r) {
      var i :| 0 <= i < |rows| && rows[i] == r;
      ListedIsThere(db.fold, before, rows, i);
    }
  }

  lemma ListedIsThere(fold: Collation, rules: map<Rule, bool>, rows: seq<Rule>, i: nat)
    requires i < |rows|
    ensures exists x :: x in InsertRules(fold, rules, rows, true) && SameKey(fold, x, rows[i])
  {
    var k := FirstExists(fold, rows, i);
    if Clashes(fold, rules, rows[k]) {
      var x :| x in rules && SameKey(fold, x, rows[k]);
      assert x in InsertRules(fold, rules, rows, true) && SameKey(fold, x, rows[i]);
    } else {
      assert rows[k] in NewRows(fold, rules, rows);
      assert rows[k] in InsertRules(fold, rules, rows, true) && SameKey(fold, rows[k], rows[i]);
    }
  }

  // ---------------------------------------------------------------- roles and accounts

  /** What a transaction makes of the row of a role: it stays, under its name, and is built in if it was
      or is made so; a new row is the one created, or built in. */
  ghost predicate RoleRow(db: Db, op: Op, after: map<nat, Role>, id: nat) {
    if id in db.roles then
      && id in after && after[id].name == db.roles[id].name
      && (after[id].builtin <==> db.roles[id].builtin || MakesBuiltin(op, db.roles[id].name))
    else if id in after then
      id == db.nextRole && (if op.CreateRole? then after[id] == Role(Trim(op.name), op.builtin)
                            else after[id].builtin && Introduces(op, after[id].name))
    else true
  }

  lemma RoleRows(c: Config, db: Db, op: Op, version: string, id: nat)
    requires Inv(db)
    ensures if OutcomeOf(c, db, op) != Done then Apply(c, db, op, version) == db
            else if op == DeleteRole(id) then id !in Apply(c, db, op, version).roles
            else RoleRow(db, op, Apply(c, db, op, version).roles, id)
  {
    if OutcomeOf(c, db, op) == Done {
      match op
      case EnsureBuiltin(b) => BuiltinRow(db, op, BaseName(b), id);
      case EnsureBase(user, b) => BuiltinRow(db, op, BaseName(b), id);
      case GrantSuperAdmin(user) => GrantedRow(db, user, version, id);
      case CreateGuestUser =>
        GuestStep(c, db, version);
        BuiltinRow(UserCreated(db), op, GUEST, id);
      case DeleteRole(role) =>
      case CreateRole(name, builtin) =>
      case _ => OthersKeepRoles(c, db, op, version);
    }
  }

  lemma OthersKeepRoles(c: Config, db: Db, op: Op, version: string)
    requires op.SetUserRoles? || op.SetPermissions? || op.DisableUser? || op.EnableUser? || op.ChangePassword?
        || op.CreateUser?
    ensures Apply(c, db, op, version).roles == db.roles
  {
  }

  lemma BuiltinRow(db: Db, op: Op, name: string, id: nat)
    requires RolesOk(db) && forall n :: MakesBuiltin(op, n) <==> n == name
    ensures RoleRow(db, op, WithBuiltin(db, name).roles, id)
  {
    assert id in db.roles ==> db.roles[id].name in RoleNames(db);
    assert MakesBuiltin(op, name);
  }

  lemma GrantedRow(db: Db, user: nat, version: string, id: nat)
    requires RolesOk(db)
    ensures RoleRow(db, GrantSuperAdmin(user), AdminGranted(db, user, version).roles, id)
  {
    assert id in db.roles ==> db.roles[id].name in RoleNames(db);
  }

  ghost predicate MakesBuiltin(op: Op, name: string) {
    match op
    case EnsureBuiltin(b) => name == if b.Guest? then "guest" else "member"
    case EnsureBase(_, b) => name == if b.Guest? then "guest" else "member"
    case CreateGuestUser => name == "guest"
    case _ => false
  }

  ghost predicate Introduces(op: Op, name: string) {
    MakesBuiltin(op, name) || (op.GrantSuperAdmin? && name == "super_admin")
  }

  /** What a transaction makes of an account's status; a new account is active, with version one. */
  lemma StatusAfter(c: Config, db: Db, op: Op, version: string, u: nat)
    requires Inv(db)
    ensures var after := Apply(c, db, op, version).users;
      if u in db.users then
        u in after && after[u].status ==
          (if op == DisableUser(u) && OutcomeOf(c, db, op) == Done then Disabled
           else if op == EnableUser(u) then Active else db.users[u].status)
      else u in after ==> u == db.nextUser && (op.CreateUser? || op.CreateGuestUser?) && after[u] == Account(Active, 1)
  {
    if OutcomeOf(c, db, op) == Done {
      if op.CreateRole? || op.DeleteRole? || op.EnsureBuiltin? || op.EnsureBase? || op.GrantSuperAdmin? {
        RoleOpsKeepUsers(c, db, op, version);
      }
    }
  }

  // ---------------------------------------------------------------- which requests are accepted

  /** Somebody is assigned the role, in some spelling. */
  ghost predicate Assigned(db: Db, name: string) {
    exists r :: r in db.rules && r.ptype == "g" && db.fold(r.v1) == db.fold(name)
  }

  lemma DeletionAcceptedIff(c: Config, db: Db, role: nat)
    ensures OutcomeOf(c, db, DeleteRole(role)) == Done <==>
      role in db.roles && !db.roles[role].builtin && !Assigned(db, db.roles[role].name)
  {
  }

  lemma CreationAcceptedIff(c: Config, db: Db, name: string, builtin: bool)
    ensures OutcomeOf(c, db, CreateRole(name, builtin)) == Done <==>
      ValidRoleName(Trim(name)) && forall id :: id in db.roles ==> db.roles[id].name != Trim(name)
  {
  }

  /** Accounts are changed exactly if they exist, and created exactly while there are identifiers. */
  lemma AccountsAcceptedIff(c: Config, db: Db, user: nat)
    ensures OutcomeOf(c, db, EnableUser(user)) == Done <==> user in db.users
    ensures OutcomeOf(c, db, ChangePassword(user)) == Done <==> user in db.users
    ensures OutcomeOf(c, db, CreateUser) == Done <==> db.nextUser < 0x1_0000_0000_0000_0000
    ensures OutcomeOf(c, db, CreateGuestUser) == Done <==> db.nextUser < 0x1_0000_0000_0000_0000
  {
  }

  /** A built-in role is neither deleted nor given other permissions. */
  lemma BuiltinIsProtected(c: Config, db: Db, role: nat, grants: seq<Grant>, version: string)
    requires role in db.roles && db.roles[role].builtin
    ensures OutcomeOf(c, db, DeleteRole(role)) == Outcome.BuiltinRole
    ensures OutcomeOf(c, db, SetPermissions(role, grants)) != Done
    ensures Apply(c, db, DeleteRole(role), version) == db && Apply(c, db, SetPermissions(role, grants), version) == db
  {
  }

  // ---------------------------------------------------------------- over runs

  /** Once a role is built in, it is in every later state, built in and under its name. */
  lemma {:induction false} BuiltinStays(c: Config, db: Db, calls: seq<Call>, id: nat)
    requires Inv(db) && id in db.roles && db.roles[id].builtin
    ensures id in Run(c, db, calls).roles && Run(c, db, calls).roles[id] == db.roles[id]
    decreases |calls|
  {
    if calls != [] {
      var op, version := calls[0].op, calls[0].version;
      StepKeepsInv(c, db, op, version);
      RoleRows(c, db, op, version, id);
      if op.DeleteRole? { DeletionAcceptedIff(c, db, op.role); }
      BuiltinStays(c, Apply(c, db, op, version), calls[1..], id);
    }
  }

  const ALL_PATHS := Rule("p", "super_admin", "/api/v1/*", ".*", "", "", "")

  lemma AdminPolicyStep(c: Config, db: Db, op: Op, version: string, id: nat)
    requires Inv(db) && id in db.roles && db.roles[id] == Role(SUPER_ADMIN, true) && ALL_PATHS in db.rules
    ensures ALL_PATHS in Apply(c, db, op, version).rules
  {
    NamesDiffer();
    if MayTouch(db, op, ALL_PATHS) {
      assert op.DeleteRole? || op.SetPermissions?;
      assert op.role == id;
      BuiltinIsProtected(c, db, id, if op.SetPermissions? then op.grants else [], version);
    } else {
      StepFrame(c, db, op, version, ALL_PATHS);
    }
  }

  /** Where the super administrator role is built in, its policy for all paths is never lost. */
  lemma {:induction false} AdminPolicyStays(c: Config, db: Db, calls: seq<Call>, id: nat)
    requires Inv(db) && id in db.roles && db.roles[id] == Role(SUPER_ADMIN, true) && ALL_PATHS in db.rules
    ensures ALL_PATHS in Run(c, db, calls).rules
    decreases |calls|
  {
    if calls != [] {
      var op, version := calls[0].op, calls[0].version;
      StepKeepsInv(c, db, op, version);
      AdminPolicyStep(c, db, op, version, id);
      BuiltinStays(c, db, [calls[0]], id);
      OneCall(c, db, calls[0]);
      AdminPolicyStays(c, Apply(c, db, op, version), calls[1..], id);
    }
  }

  lemma OneCall(c: Config, db: Db, call: Call)
    ensures Run(c, db, [call]) == Apply(c, db, call.op, call.version)
  {
    assert [call][1..] == [];
    assert Run(c, Apply(c, db, call.op, call.version), []) == Apply(c, db, call.op, call.version);
  }

  ghost predicate IsFor(op: Op, role: nat) { (op.DeleteRole? || op.SetPermissions?) && op.role == role }

  /** Declared policies of a role are changed only by requests for that role: over every run without one
      they stay as they are. */
  lemma {:induction false} PoliciesStay(c: Config, db: Db, calls: seq<Call>, id: nat, r: Rule)
    requires Inv(db) && id in db.roles && PolicyRow(r, db.roles[id].name) && r in db.rules && !db.rules[r]
    requires forall i :: 0 <= i < |calls| ==> !IsFor(calls[i].op, id)
    ensures r in Run(c, db, calls).rules && !Run(c, db, calls).rules[r]
    decreases |calls|
  {
    if calls != [] {
      var op, version := calls[0].op, calls[0].version;
      var next := Apply(c, db, op, version);
      StepKeepsInv(c, db, op, version);
      RoleRows(c, db, op, version, id);
      assert !MayTouch(db, op, r);
      StepFrame(c, db, op, version, r);
      PoliciesStay(c, next, calls[1..], id, r);
    }
  }
}
