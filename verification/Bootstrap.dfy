/** Reconciliation of the built-in roles: bootstrap is idempotent, while reconciling a base role
    from a cached snapshot, and the older disabling guard, can both go wrong. */
module Bootstrap {
  import opened Ordering
  import opened PolicyRules
  import opened Rbac
  import opened RbacSafety
  import opened RbacStore
  import opened SpellingRuns

  // ---------------------------------------------------------------- a reconciled base role

  ghost predicate HasBuiltin(roles: map<nat, Role>, name: string) {
    exists id :: id in roles && roles[id] == Role(name, true)
  }

  /** The role is built in, and its generated policies are those that replacing them would give. */
  ghost predicate Reconciled(c: Config, db: Db, b: Base) {
    && HasBuiltin(db.roles, BaseName(b))
    && InsertRules(db.fold, WithoutManaged(db.rules, BaseName(b)), Manifest(c, b), true) == db.rules
  }

  lemma WithBuiltinHas(db: Db, name: string)
    ensures HasBuiltin(WithBuiltin(db, name).roles, name)
  {
    var after := WithBuiltin(db, name).roles;
    if name in RoleNames(db) {
      var id :| id in db.roles && db.roles[id].name == name;
      assert after[id] == Role(name, true);
    } else {
      assert after[db.nextRole] == Role(name, true);
    }
  }

  /** Taking the generated policies out again gives back what was there before them. */
  lemma ManagedUndone(fold: Collation, base: map<Rule, bool>, role: string, rows: seq<Rule>)
    requires WithoutManaged(base, role) == base && forall r :: r in rows ==> r.ptype == "p" && r.v0 == role
    ensures WithoutManaged(InsertRules(fold, base, rows, true), role) == base
  {
    var after := InsertRules(fold, base, rows, true);
    forall r | r in NewRows(fold, base, rows) ensures r.ptype == "p" && r.v0 == role && r !in base && after[r] {
      assert r in rows;
      if r in base { assert Clashes(fold, base, r); }
    }
    forall r | r in base ensures after[r] == base[r] && !(r.ptype == "p" && r.v0 == role && base[r]) {
      assert r in WithoutManaged(base, role);
    }
  }

  lemma WithoutManagedTwice(rules: map<Rule, bool>, role: string)
    ensures WithoutManaged(WithoutManaged(rules, role), role) == WithoutManaged(rules, role)
  {
  }

  lemma EnsuringReconciles(c: Config, db: Db, b: Base, version: string)
    ensures Reconciled(c, BuiltinEnsured(c, db, b, version), b)
  {
    WithBuiltinHas(db, BaseName(b));
    WithoutManagedTwice(db.rules, BaseName(b));
    ManagedUndone(db.fold, WithoutManaged(db.rules, BaseName(b)), BaseName(b), Manifest(c, b));
  }

  lemma WithBuiltinFixed(db: Db, name: string)
    requires UniqueNames(db.roles) && HasBuiltin(db.roles, name)
    ensures WithBuiltin(db, name) == db
  {
    var id :| id in db.roles && db.roles[id] == Role(name, true);
    assert name in RoleNames(db);
    assert forall k :: k in db.roles && db.roles[k].name == name ==> k == id;
    assert WithBuiltin(db, name).roles == db.roles;
  }

  lemma WithBuiltinKeeps(db: Db, name: string, other: string)
    requires RolesOk(db) && HasBuiltin(db.roles, other)
    ensures HasBuiltin(WithBuiltin(db, name).roles, other)
  {
    var id :| id in db.roles && db.roles[id] == Role(other, true);
    assert WithBuiltin(db, name).roles[id] == Role(other, true);
  }

  /** A reconciled role is a fixed point: ensuring it again only records a change. */
  lemma ReconciledIsFixed(c: Config, db: Db, b: Base, version: string)
    requires UniqueNames(db.roles) && Reconciled(c, db, b)
    ensures BuiltinEnsured(c, db, b, version) == Recorded(db, version)
  {
    WithBuiltinFixed(db, BaseName(b));
  }

  /** Two tables have the same policies of a role, with the same marks. */
  ghost predicate SamePolicies(a: map<Rule, bool>, b: map<Rule, bool>, role: string) {
    forall r: Rule {:trigger r in a} {:trigger r in b} :: r.ptype == "p" && r.v0 == role ==>
      (r in a <==> r in b) && (r in a ==> a[r] == b[r])
  }

  lemma SameNewRows(fold: Collation, a: map<Rule, bool>, b: map<Rule, bool>, role: string, rows: seq<Rule>)
    requires SamePolicies(a, b, role) && forall r :: r in rows ==> r.ptype == "p" && r.v0 == role
    ensures NewRows(fold, a, rows) == NewRows(fold, b, rows)
  {
    forall i | 0 <= i < |rows| ensures Clashes(fold, a, rows[i]) <==> Clashes(fold, b, rows[i]) {
      assert rows[i] in rows;
      if Clashes(fold, a, rows[i]) { var r :| r in a && SameKey(fold, r, rows[i]); assert r in b; }
      if Clashes(fold, b, rows[i]) { var r :| r in b && SameKey(fold, r, rows[i]); assert r in a; }
    }
  }

  lemma SameReconciled(fold: Collation, c: Config, a: map<Rule, bool>, b: map<Rule, bool>, base: Base)
    requires SamePolicies(a, b, BaseName(base))
    requires InsertRules(fold, WithoutManaged(a, BaseName(base)), Manifest(c, base), true) == a
    ensures InsertRules(fold, WithoutManaged(b, BaseName(base)), Manifest(c, base), true) == b
  {
    var role, rows := BaseName(base), Manifest(c, base);
    var x, y := WithoutManaged(a, role), WithoutManaged(b, role);
    assert SamePolicies(x, y, role);
    SameNewRows(fold, x, y, role, rows);
    forall r | r in NewRows(fold, y, rows) ensures r.ptype == "p" && r.v0 == role && r in b {
      assert r in rows && r in a;
    }
    assert forall r :: r in InsertRules(fold, y, rows, true) <==> r in b;
    assert forall r :: r in b ==> InsertRules(fold, y, rows, true)[r] == b[r];
  }

  /** Changing other rows keeps a role reconciled. */
  lemma OtherRowsKeep(c: Config, before: Db, after: Db, b: Base)
    requires Reconciled(c, before, b) && HasBuiltin(after.roles, BaseName(b)) && after.fold == before.fold
    requires SamePolicies(before.rules, after.rules, BaseName(b))
    ensures Reconciled(c, after, b)
  {
    SameReconciled(before.fold, c, before.rules, after.rules, b);
  }

  lemma EnsuringOtherKeeps(c: Config, db: Db, b: Base, other: Base, version: string)
    requires RolesOk(db) && Reconciled(c, db, other) && b != other
    ensures Reconciled(c, BuiltinEnsured(c, db, b, version), other)
  {
    NamesDiffer();
    WithBuiltinKeeps(db, BaseName(b), BaseName(other));
    assert SamePolicies(db.rules, BuiltinEnsured(c, db, b, version).rules, BaseName(other));
    OtherRowsKeep(c, db, BuiltinEnsured(c, db, b, version), other);
  }

  // ---------------------------------------------------------------- bootstrap twice

  /** The only base-role row of the user is an ordinary assignment of `b`. */
  ghost predicate BaseRow(fold: Collation, rules: map<Rule, bool>, user: nat, b: Base) {
    && Grouping(user, BaseName(b)) in rules && !rules[Grouping(user, BaseName(b))]
    && forall r :: r in rules && AssignsTo(r, user) && SqlBaseName(fold, r.v1) ==> r == Grouping(user, BaseName(b))
  }

  ghost predicate BootstrapDone(c: Config, db: Db, b: Base, user: nat) {
    && Reconciled(c, db, Guest) && Reconciled(c, db, Member) && BaseRow(db.fold, db.rules, user, b)
    && SUPER_ADMIN in RoleNames(db) && Clashes(db.fold, db.rules, ADMIN_POLICY)
    && Spelled(db.fold, db.rules, user, SUPER_ADMIN)
  }

  lemma BaseRowAfter(fold: Collation, rules: map<Rule, bool>, user: nat, b: Base)
    ensures BaseRow(fold, AddRules(WithoutBase(fold, rules, user), {Grouping(user, BaseName(b))}, false), user, b)
  {
    AssignsToGrouping(user, BaseName(b), user);
  }

  lemma BaseRowFixed(fold: Collation, rules: map<Rule, bool>, user: nat, b: Base)
    requires BaseRow(fold, rules, user, b)
    ensures AddRules(WithoutBase(fold, rules, user), {Grouping(user, BaseName(b))}, false) == rules
  {
    AssignsToGrouping(user, BaseName(b), user);
  }

  lemma BaseEnsuredKeeps(c: Config, db: Db, user: nat, b: Base, version: string)
    requires Inv(db) && Reconciled(c, db, Guest) && Reconciled(c, db, Member)
    ensures var after := BaseEnsured(c, db, user, b, version);
      Reconciled(c, after, Guest) && Reconciled(c, after, Member) && BaseRow(db.fold, after.rules, user, b)
  {
    var with, after := BuiltinEnsured(c, db, b, version), BaseEnsured(c, db, user, b, version);
    ReconciledIsFixed(c, db, b, version);
    OtherRowsKeep(c, with, after, Guest);
    OtherRowsKeep(c, with, after, Member);
    BaseRowAfter(db.fold, with.rules, user, b);
  }

  lemma AdminPolicyIsElsewhere(b: Base)
    ensures ADMIN_POLICY.v0 != BaseName(b) && ADMIN_POLICY.ptype == "p"
  {
    NamesDiffer();
  }

  lemma GrantKeepsReconciled(c: Config, db: Db, user: nat, version: string, b: Base)
    requires Inv(db) && Reconciled(c, db, b)
    ensures Reconciled(c, AdminGranted(db, user, version), b)
  {
    AdminPolicyIsElsewhere(b);
    WithBuiltinKeeps(db, SUPER_ADMIN, BaseName(b));
    assert SamePolicies(db.rules, AdminGranted(db, user, version).rules, BaseName(b));
    OtherRowsKeep(c, db, AdminGranted(db, user, version), b);
  }

  lemma GrantAssigns(db: Db, user: nat, version: string)
    requires Inv(db)
    ensures var after := AdminGranted(db, user, version);
      SUPER_ADMIN in RoleNames(after) && Clashes(db.fold, after.rules, ADMIN_POLICY)
      && Spelled(db.fold, after.rules, user, SUPER_ADMIN)
  {
    var row, mid := Grouping(user, SUPER_ADMIN), InsertRow(db.fold, db.rules, ADMIN_POLICY, true);
    SuperAdminIsValid();
    BuiltinKeepsRoles(db, SUPER_ADMIN);
    assert RoleNames(AdminGranted(db, user, version)) == RoleNames(db) + {SUPER_ADMIN};
    InsertedClashes(db.fold, db.rules, ADMIN_POLICY, true);
    InsertedClashes(db.fold, mid, row, false);
    ClashStays(db.fold, mid, row, false, ADMIN_POLICY);
  }

  lemma InsertedClashes(fold: Collation, rules: map<Rule, bool>, row: Rule, managed: bool)
    ensures Clashes(fold, InsertRow(fold, rules, row, managed), row)
  {
    if !Clashes(fold, rules, row) { assert SameKey(fold, row, row) && row in InsertRow(fold, rules, row, managed); }
  }

  lemma ClashStays(fold: Collation, rules: map<Rule, bool>, row: Rule, managed: bool, other: Rule)
    requires Clashes(fold, rules, other)
    ensures Clashes(fold, InsertRow(fold, rules, row, managed), other)
  {
    var r :| r in rules && SameKey(fold, r, other);
    assert r in InsertRow(fold, rules, row, managed);
  }

  lemma GrantKeepsBaseRow(db: Db, user: nat, version: string, b: Base)
    requires IsCollation(db.fold) && BaseRow(db.fold, db.rules, user, b)
    ensures BaseRow(db.fold, AdminGranted(db, user, version).rules, user, b)
  {
    NamesDiffer();
    var after := AdminGranted(db, user, version).rules;
    AdminIsNoBase(db.fold);
    forall r | r in after && AssignsTo(r, user) && SqlBaseName(db.fold, r.v1) ensures r == Grouping(user, BaseName(b)) {
      assert r != ADMIN_POLICY && r != Grouping(user, SUPER_ADMIN);
    }
  }

  /** The base roles and the user's base row are in place, before the last transaction. */
  ghost predicate BasesDone(c: Config, db: Db, b: Base, user: nat) {
    Inv(db) && Reconciled(c, db, Guest) && Reconciled(c, db, Member) && BaseRow(db.fold, db.rules, user, b)
  }

  lemma BasesEstablished(c: Config, db: Db, b: Base, user: nat, version: string)
    requires Inv(db)
    ensures BasesDone(c, BeforeGrant(c, db, b, user, version), b, user)
  {
    var db1 := BuiltinEnsured(c, db, Guest, version);
    var db2 := BuiltinEnsured(c, db1, Member, version);
    BuiltinInv(c, db, Guest, version);
    BuiltinInv(c, db1, Member, version);
    BaseInv(c, db2, user, b, version);
    EnsuringReconciles(c, db, Guest, version);
    EnsuringReconciles(c, db1, Member, version);
    EnsuringOtherKeeps(c, db1, Member, Guest, version);
    BaseEnsuredKeeps(c, db2, user, b, version);
  }

  lemma GrantEstablishes(c: Config, db: Db, b: Base, user: nat, version: string)
    requires BasesDone(c, db, b, user)
    ensures Inv(AdminGranted(db, user, version)) && BootstrapDone(c, AdminGranted(db, user, version), b, user)
  {
    GrantInv(db, user, version);
    GrantKeepsReconciled(c, db, user, version, Guest);
    GrantKeepsReconciled(c, db, user, version, Member);
    GrantAssigns(db, user, version);
    GrantKeepsBaseRow(db, user, version, b);
  }

  lemma BootstrapEstablishes(c: Config, db: Db, b: Base, user: nat, version: string)
    requires Inv(db)
    ensures Inv(Bootstrapped(c, db, b, user, version))
    ensures BootstrapDone(c, Bootstrapped(c, db, b, user, version), b, user)
  {
    BasesEstablished(c, db, b, user, version);
    GrantEstablishes(c, BeforeGrant(c, db, b, user, version), b, user, version);
  }

  lemma GrantIsFixed(db: Db, user: nat, version: string)
    requires SUPER_ADMIN in RoleNames(db) && Clashes(db.fold, db.rules, ADMIN_POLICY)
    requires Spelled(db.fold, db.rules, user, SUPER_ADMIN)
    ensures AdminGranted(db, user, version) == Recorded(db, version)
  {
  }

  /** Running bootstrap on a state that it has reached adds outbox rows only. */
  lemma DoneStays(c: Config, once: Db, b: Base, user: nat, again: string)
    requires Inv(once) && BootstrapDone(c, once, b, user)
    ensures BaseOf(once.rules, user) == b
    ensures Bootstrapped(c, once, BaseOf(once.rules, user), user, again).(outbox := once.outbox) == once
  {
    BaseRowDecides(once.fold, once.rules, user, b);
    DoneIsFixed(c, once, b, user, again);
  }

  /** Outbox rows are all that a second bootstrap adds. */
  lemma BootstrapIsIdempotent(c: Config, db: Db, b: Base, user: nat, version: string, again: string)
    requires Inv(db)
    ensures var once := Bootstrapped(c, db, b, user, version);
      && BaseOf(once.rules, user) == b
      && Bootstrapped(c, once, BaseOf(once.rules, user), user, again).(outbox := once.outbox) == once
  {
    BootstrapEstablishes(c, db, b, user, version);
    DoneStays(c, Bootstrapped(c, db, b, user, version), b, user, again);
  }

  lemma BaseRowDecides(fold: Collation, rules: map<Rule, bool>, user: nat, b: Base)
    requires BaseRow(fold, rules, user, b)
    ensures BaseOf(rules, user) == b
  {
    NamesDiffer();
    AssignsToGrouping(user, BaseName(b), user);
    assert BaseName(b) in RolesOf(rules, user);
  }

  lemma BaseIsFixed(c: Config, db: Db, b: Base, user: nat, version: string)
    requires UniqueNames(db.roles) && Reconciled(c, db, b) && BaseRow(db.fold, db.rules, user, b)
    ensures BaseEnsured(c, db, user, b, version) == Recorded(db, version)
  {
    ReconciledIsFixed(c, db, b, version);
    BaseRowFixed(db.fold, db.rules, user, b);
  }

  lemma BasesAreFixed(c: Config, db: Db, b: Base, user: nat, version: string)
    requires Inv(db) && BootstrapDone(c, db, b, user)
    ensures BeforeGrant(c, db, b, user, version) == Recorded(Recorded(Recorded(db, version), version), version)
  {
    var db1, db2 := Recorded(db, version), Recorded(Recorded(db, version), version);
    ReconciledIsFixed(c, db, Guest, version);
    ReconciledIsFixed(c, db1, Member, version);
    BaseIsFixed(c, db2, b, user, version);
  }

  lemma ThriceRecorded(db: Db, db3: Db, version: string)
    requires db3 == Recorded(Recorded(Recorded(db, version), version), version)
    ensures RoleNames(db3) == RoleNames(db) && db3.rules == db.rules && db3.fold == db.fold
    ensures Recorded(db3, version).(outbox := db.outbox) == db
  {
  }

  lemma DoneIsFixed(c: Config, db: Db, b: Base, user: nat, version: string)
    requires Inv(db) && BootstrapDone(c, db, b, user)
    ensures Bootstrapped(c, db, b, user, version).(outbox := db.outbox) == db
  {
    var db3 := BeforeGrant(c, db, b, user, version);
    BasesAreFixed(c, db, b, user, version);
    ThriceRecorded(db, db3, version);
    GrantIsFixed(db3, user, version);
  }

  /** After bootstrap an active account is an active super administrator if and only if it did not hold
      the role in another spelling, in which case the insert is skipped. */
  lemma BootstrapMakesAdminIff(c: Config, db: Db, b: Base, user: nat, version: string)
    requires Inv(db) && IsActive(db, user)
    ensures ActiveAdmin(Bootstrapped(c, db, b, user, version), user) <==>
      SUPER_ADMIN in RolesOf(db.rules, user) || !SqlHolds(db.fold, db.rules, user, SUPER_ADMIN)
  {
    var db3 := BeforeGrant(c, db, b, user, version);
    RolesBeforeGrant(c, db, b, user, version);
    BaseNamesAside(db.fold, RolesOf(db.rules, user), b);
    SpelledIff(db3, user);
    RolesAfterGrant(db3, user, version, user);
    GrantKeepsAccounts(db3, user, version);
  }

  lemma RolesBeforeGrant(c: Config, db: Db, b: Base, user: nat, version: string)
    requires Inv(db)
    ensures var db3, roles := BeforeGrant(c, db, b, user, version), RolesOf(db.rules, user);
      Inv(db3) && db3.users == db.users && RolesOf(db3.rules, user) == roles - BasesIn(db.fold, roles) + {BaseName(b)}
  {
    var db1 := BuiltinEnsured(c, db, Guest, version);
    var db2 := BuiltinEnsured(c, db1, Member, version);
    BuiltinInv(c, db, Guest, version);
    BuiltinInv(c, db1, Member, version);
    BaseInv(c, db2, user, b, version);
    RolesAfterBuiltin(c, db, Guest, version, user);
    RolesAfterBuiltin(c, db1, Member, version, user);
    RolesAfterBase(c, db2, user, b, version, user);
    BuiltinKeepsAccounts(c, db, Guest, version);
    BuiltinKeepsAccounts(c, db1, Member, version);
    BuiltinKeepsAccounts(c, db2, b, version);
  }

  lemma BuiltinKeepsAccounts(c: Config, db: Db, b: Base, version: string)
    ensures BuiltinEnsured(c, db, b, version).users == db.users
  {
  }

  lemma GrantKeepsAccounts(db: Db, user: nat, version: string)
    ensures AdminGranted(db, user, version).users == db.users
  {
  }

  /** Swapping the base role does not touch any spelling of the super administrator role. */
  lemma BaseNamesAside(fold: Collation, names: set<string>, b: Base)
    requires IsCollation(fold)
    ensures var after := names - BasesIn(fold, names) + {BaseName(b)};
      && (SUPER_ADMIN in after <==> SUPER_ADMIN in names)
      && (fold(SUPER_ADMIN) in FoldSet(fold, after) <==> fold(SUPER_ADMIN) in FoldSet(fold, names))
  {
    var after := names - BasesIn(fold, names) + {BaseName(b)};
    NamesDiffer();
    OwnNamesFold(fold);
    if n :| n in names && fold(n) == SUPER_ADMIN { assert n in after; }
    if n :| n in after && fold(n) == SUPER_ADMIN { assert n in names; }
  }

  lemma SpelledIff(db: Db, user: nat)
    requires Inv(db)
    ensures Spelled(db.fold, db.rules, user, SUPER_ADMIN) <==> SqlHolds(db.fold, db.rules, user, SUPER_ADMIN)
  {
    if Spelled(db.fold, db.rules, user, SUPER_ADMIN) {
      var r :| r in db.rules && SameKey(db.fold, r, Grouping(user, SUPER_ADMIN));
      assert r.v1 in RolesOf(db.rules, user);
    }
    if SqlHolds(db.fold, db.rules, user, SUPER_ADMIN) {
      var n :| n in RolesOf(db.rules, user) && db.fold(n) == db.fold(SUPER_ADMIN);
      var r :| r in db.rules && AssignsTo(r, user) && r.v1 == n;
      assert RuleOk(db.fold, RoleNames(db), r);
      assert SameKey(db.fold, r, Grouping(user, SUPER_ADMIN));
    }
  }

  // ---------------------------------------------------------------- reconciling from a snapshot

  /** `EnsureCurrentBaseRoleForUser` chooses the base role from the cached enforcer.  It leaves the
      base role alone exactly when the snapshot agrees with the table about the member role. */
  lemma ReconcilingKeepsBaseIff(c: Config, db: Db, snapshot: map<Rule, bool>, user: nat, version: string)
    ensures var after := BaseEnsured(c, db, user, BaseOf(snapshot, user), version).rules;
      BaseOf(after, user) == BaseOf(db.rules, user)
      <==> (MEMBER in RolesOf(snapshot, user) <==> MEMBER in RolesOf(db.rules, user))
  {
    BaseIsExact(c, db, user, BaseOf(snapshot, user), version, user);
  }

  /** So a promotion to member is undone when the login that reconciles the account still sees the
      rules from before it. */
  lemma {:induction false} PromotionIsUndone(c: Config, db: Db, user: nat, v1: string, v2: string)
    requires MEMBER !in RolesOf(db.rules, user)
    ensures var promoted := BaseEnsured(c, db, user, Member, v1);
      && MEMBER in RolesOf(promoted.rules, user)
      && MEMBER !in RolesOf(BaseEnsured(c, promoted, user, BaseOf(db.rules, user), v2).rules, user)
  {
    var promoted := BaseEnsured(c, db, user, Member, v1);
    BaseIsExact(c, db, user, Member, v1, user);
    BaseIsExact(c, promoted, user, BaseOf(db.rules, user), v2, user);
  }

  // ---------------------------------------------------------------- the older disabling guard

  function HoldersOf(rules: map<Rule, bool>, name: string): set<string> {
    set r | r in rules && r.ptype == "g" && r.v1 == name :: r.v0
  }

  /** `CanDisable`: it counts the holders of the role, active or not. */
  function CanDisable(snapshot: map<Rule, bool>, user: nat): bool {
    SUPER_ADMIN !in RolesOf(snapshot, user) || |HoldersOf(snapshot, SUPER_ADMIN)| > 1
  }

  ghost predicate OtherHolder(rules: map<Rule, bool>, user: nat) {
    exists r :: r in rules && r.ptype == "g" && r.v1 == SUPER_ADMIN && r.v0 != Subject(user)
  }

  lemma SeveralHoldersIff(rules: map<Rule, bool>, user: nat)
    requires SUPER_ADMIN in RolesOf(rules, user)
    ensures |HoldersOf(rules, SUPER_ADMIN)| > 1 <==> OtherHolder(rules, user)
  {
    var holders := HoldersOf(rules, SUPER_ADMIN);
    var own :| own in rules && AssignsTo(own, user) && own.v1 == SUPER_ADMIN;
    assert Subject(user) in holders;
    if OtherHolder(rules, user) {
      var r :| r in rules && r.ptype == "g" && r.v1 == SUPER_ADMIN && r.v0 != Subject(user);
      var two := {Subject(user), r.v0};
      assert two <= holders;
      SubsetCardinality(two, holders);
    } else {
      assert holders == {Subject(user)};
    }
  }

  /** That guard asks the cached snapshot and counts holders whether active or not.  It lets the last
      active super administrator be disabled exactly when the snapshot does not show the user as a
      holder, or shows another holder besides. */
  lemma OlderGuardFailsIff(db: Db, snapshot: map<Rule, bool>, user: nat)
    requires ActiveAdmin(db, user)
    ensures CanDisable(snapshot, user) && !HasActiveAdmin(StatusSet(db, user, Disabled))
            <==> !OtherActiveAdmin(db, user) && (SUPER_ADMIN !in RolesOf(snapshot, user) || OtherHolder(snapshot, user))
  {
    if SUPER_ADMIN in RolesOf(snapshot, user) { SeveralHoldersIff(snapshot, user); }
    DisabledAdmins(db, user);
  }

  /** It does fail: where `user` and `other` are the only active super administrators, disabling
      `other` is allowed, and then the guard, asking a current snapshot, lets `user` be disabled too;
      `DisableUser` refuses. */
  lemma OlderGuardFails(c: Config, db: Db, user: nat, other: nat, version: string)
    requires Inv(db) && Exact(db) && user != other && ActiveAdmin(db, user) && ActiveAdmin(db, other)
    requires forall u: nat :: ActiveAdmin(db, u) ==> u == user || u == other
    ensures OutcomeOf(c, db, DisableUser(other)) == Done
    ensures var after := Apply(c, db, DisableUser(other), version);
      && ActiveAdmin(after, user) && CanDisable(after.rules, user) && !HasActiveAdmin(StatusSet(after, user, Disabled))
      && OutcomeOf(c, after, DisableUser(user)) == LastSuperAdmin
  {
    var after := StatusSet(db, other, Disabled);
    ExactIsAdminExact(db);
    GuardCountsAdmins(db, other);
    assert OtherActiveAdmin(db, other);
    DisableStep(c, db, other, version);
    OtherIsDisabled(db, user, other);
    OtherHolds(after, user, other);
    OlderGuardFailsIff(after, after.rules, user);
    assert HasActiveAdmin(after);
    DisabledAdmins(after, user);
    ExactIsAdminExact(after);
    RefusalIsExact(c, after, user);
  }

  lemma DisableStep(c: Config, db: Db, user: nat, version: string)
    requires user in db.users && OtherSqlAdmin(db, user)
    ensures OutcomeOf(c, db, DisableUser(user)) == Done
    ensures Apply(c, db, DisableUser(user), version) == StatusSet(db, user, Disabled)
  {
  }

  lemma OtherIsDisabled(db: Db, user: nat, other: nat)
    requires Inv(db) && Exact(db) && user != other && ActiveAdmin(db, user) && ActiveAdmin(db, other)
    requires forall u: nat :: ActiveAdmin(db, u) ==> u == user || u == other
    ensures var after := StatusSet(db, other, Disabled);
      Inv(after) && Exact(after) && ActiveAdmin(after, user) && !OtherActiveAdmin(after, user)
  {
    var after := StatusSet(db, other, Disabled);
    StatusInv(db, other, Disabled);
    SameNamesKeepExact(db, after);
    forall u: nat | u != user ensures !ActiveAdmin(after, u) { assert u != other ==> !ActiveAdmin(db, u); }
  }

  lemma OtherHolds(db: Db, user: nat, other: nat)
    requires user != other && SUPER_ADMIN in RolesOf(db.rules, other)
    ensures OtherHolder(db.rules, user)
  {
    var r :| r in db.rules && AssignsTo(r, other) && r.v1 == SUPER_ADMIN;
    if Subject(user) == Subject(other) { SubjectInjective(user, other); }
  }

  /** Two such administrators come about by granting the role to two accounts. */
  lemma TwoAdminsAreReached(fold: Collation, c: Config, version: string)
    requires IsCollation(fold)
    ensures var db := Apply(c, Provisioned(fold, c, version), GrantSuperAdmin(2), version);
      && Inv(db) && Exact(db) && ActiveAdmin(db, 1) && ActiveAdmin(db, 2)
      && forall u: nat :: ActiveAdmin(db, u) ==> u == 1 || u == 2
  {
    SettingIsReached(fold, c, version);
    SecondAdmin(Provisioned(fold, c, version), version);
    GrantStep(c, Provisioned(fold, c, version), 2, version);
  }

  lemma SecondAdmin(db: Db, version: string)
    requires Setting(db, 1, 2)
    ensures var after := AdminGranted(db, 2, version);
      && Inv(after) && Exact(after) && ActiveAdmin(after, 1) && ActiveAdmin(after, 2)
      && forall u: nat :: ActiveAdmin(after, u) ==> u == 1 || u == 2
  {
    var after := AdminGranted(db, 2, version);
    GrantInv(db, 2, version);
    GrantExact(db, 2, version);
    SpelledIff(db, 2);
    ExactIsAdminExact(db);
    AdminHolds(db, 2);
    assert after.users == db.users;
    forall u: nat ensures ActiveAdmin(after, u) <==> ActiveAdmin(db, u) || u == 2 {
      RolesAfterGrant(db, 2, version, u);
    }
  }
}
