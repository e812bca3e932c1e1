/** What every transaction of the permission and user services keeps, over whole runs. */
module RbacSafety {
  import opened Options
  import opened Text
  import opened Uniques
  import opened PolicyRules
  import opened Rbac

  // ---------------------------------------------------------------- rules and roles stay consistent

  lemma BuiltinKeepsRoles(db: Db, name: string)
    requires RolesOk(db) && ValidRoleName(name)
    ensures RolesOk(WithBuiltin(db, name)) && RoleNames(WithBuiltin(db, name)) == RoleNames(db) + {name}
  {
    var after := WithBuiltin(db, name);
    if name in RoleNames(db) {
      forall n | n in RoleNames(db) ensures n in RoleNames(after) {
        var id :| id in db.roles && db.roles[id].name == n;
        assert after.roles[id].name == n;
      }
    } else {
      AddedNames(db, db.nextRole, Role(name, true));
    }
  }

  lemma AddedNames(db: Db, id: nat, role: Role)
    requires id !in db.roles
    ensures RoleNames(db.(roles := db.roles[id := role])) == RoleNames(db) + {role.name}
  {
    var after := db.roles[id := role];
    forall n | n in RoleNames(db) ensures exists k :: k in after && after[k].name == n {
      var k :| k in db.roles && db.roles[k].name == n;
      assert after[k].name == n;
    }
    assert after[id].name == role.name;
  }

  /** Rows that are kept or inserted keep naming roles when no name in use disappears. */
  lemma RulesStayOk(before: Db, after: Db)
    requires RulesOk(before) && after.fold == before.fold
    requires forall r :: r in after.rules ==>
      || (r in before.rules && (r.ptype == "p" ==> r.v0 in RoleNames(after))
          && (r.ptype == "g" ==> before.fold(r.v1) in RoleNames(after)))
      || RuleOk(before.fold, RoleNames(after), r)
    ensures RulesOk(after)
  {
    forall r | r in after.rules ensures RuleOk(before.fold, RoleNames(after), r) {
      assert r in before.rules ==> RuleOk(before.fold, RoleNames(before), r);
    }
  }

  lemma NamesStay(before: Db, after: Db)
    requires RulesOk(before) && after.fold == before.fold && RoleNames(before) <= RoleNames(after)
    requires forall r :: r in after.rules ==> r in before.rules || RuleOk(before.fold, RoleNames(after), r)
    ensures RulesOk(after)
  {
    forall r | r in before.rules
      ensures r.ptype == "p" ==> r.v0 in RoleNames(after)
      ensures r.ptype == "g" ==> before.fold(r.v1) in RoleNames(after)
    {
      assert RuleOk(before.fold, RoleNames(before), r);
    }
    RulesStayOk(before, after);
  }

  lemma GroupingOk(fold: Collation, names: set<string>, user: nat, role: string)
    requires fold(role) in names
    ensures RuleOk(fold, names, Grouping(user, role))
  {
    assert Grouping(user, role) == Grouping(user, Grouping(user, role).v1);
  }

  lemma ReplacedInv(db: Db, user: nat, names: set<string>, version: string)
    requires Inv(db) && FoldSet(db.fold, names) <= RoleNames(db) && !(GUEST in names && MEMBER in names)
    ensures Inv(RolesReplaced(db, user, names, version))
  {
    var after := RolesReplaced(db, user, names, version);
    assert RoleNames(after) == RoleNames(db);
    forall n | n in names ensures RuleOk(db.fold, RoleNames(after), Grouping(user, n)) {
      assert db.fold(n) in FoldSet(db.fold, names);
      GroupingOk(db.fold, RoleNames(after), user, n);
    }
    NamesStay(db, after);
    forall u: nat ensures !(GUEST in RolesOf(after.rules, u) && MEMBER in RolesOf(after.rules, u)) {
      RolesAfterReplacement(db, user, names, version, u);
    }
  }

  lemma WantedHasOneBase(db: Db, user: nat, roles: seq<string>)
    requires GUEST !in Unique(roles) && MEMBER !in Unique(roles)
    ensures GUEST in WantedRoles(db, user, roles) <==> MEMBER !in WantedRoles(db, user, roles)
    ensures MEMBER in WantedRoles(db, user, roles) <==> MEMBER in RolesOf(db.rules, user)
  {
    NamesDiffer();
  }

  lemma DeletedInv(db: Db, role: nat, version: string)
    requires Inv(db) && DeleteOutcome(db, role) == Done
    ensures Inv(RoleDeleted(db, role, version))
    ensures RoleNames(RoleDeleted(db, role, version)) == RoleNames(db) - {db.roles[role].name}
    ensures forall r :: r in RoleDeleted(db, role, version).rules ==>
      !(r.ptype == "p" && r.v0 == db.roles[role].name) && !(r.ptype == "g" && db.fold(r.v1) == db.roles[role].name)
  {
    var after, name := RoleDeleted(db, role, version), db.roles[role].name;
    ValidNameFolds(db.fold, name);
    forall n | n in RoleNames(db) && n != name ensures n in RoleNames(after) {
      var id :| id in db.roles && db.roles[id].name == n;
      assert after.roles[id].name == n;
    }
    forall r | r in after.rules
      ensures r in db.rules && (r.ptype == "p" ==> r.v0 in RoleNames(after))
      ensures r.ptype == "g" ==> db.fold(r.v1) in RoleNames(after)
    {
      assert RuleOk(db.fold, RoleNames(db), r);
    }
    RulesStayOk(db, after);
    SameRolesOneBase(db.rules, after.rules);
  }

  lemma SameRolesOneBase(a: map<Rule, bool>, b: map<Rule, bool>)
    requires OneBase(a) && forall r: Rule :: r.ptype == "g" ==> (r in a <==> r in b)
    ensures OneBase(b)
  {
    forall u: nat ensures !(GUEST in RolesOf(b, u) && MEMBER in RolesOf(b, u)) { SameGroupings(a, b, u); }
  }

  lemma PermissionsInv(db: Db, role: nat, grants: seq<Grant>, version: string)
    requires Inv(db) && role in db.roles
    ensures Inv(PermissionsSet(db, role, grants, version))
  {
    var after := PermissionsSet(db, role, grants, version);
    NamesStay(db, after);
    SameRolesOneBase(db.rules, after.rules);
  }

  lemma RoleCreatedInv(db: Db, name: string, builtin: bool)
    requires Inv(db) && ValidRoleName(Trim(name)) && Trim(name) !in RoleNames(db)
    ensures Inv(RoleCreated(db, name, builtin))
  {
    AddedNames(db, db.nextRole, Role(Trim(name), builtin));
    assert RoleNames(RoleCreated(db, name, builtin))
        == RoleNames(db.(roles := db.roles[db.nextRole := Role(Trim(name), builtin)]));
    NamesStay(db, RoleCreated(db, name, builtin));
  }

  lemma BuiltinInv(c: Config, db: Db, b: Base, version: string)
    requires Inv(db)
    ensures Inv(BuiltinEnsured(c, db, b, version)) && BaseName(b) in RoleNames(BuiltinEnsured(c, db, b, version))
  {
    var after := BuiltinEnsured(c, db, b, version);
    OwnNamesFold(db.fold);
    BuiltinKeepsRoles(db, BaseName(b));
    assert RoleNames(after) == RoleNames(WithBuiltin(db, BaseName(b)));
    NamesStay(db, after);
    BuiltinGroupings(c, db, b, version);
    SameRolesOneBase(db.rules, after.rules);
  }

  lemma BaseInv(c: Config, db: Db, user: nat, b: Base, version: string)
    requires Inv(db)
    ensures Inv(BaseEnsured(c, db, user, b, version))
  {
    var with, after := BuiltinEnsured(c, db, b, version), BaseEnsured(c, db, user, b, version);
    BuiltinInv(c, db, b, version);
    assert RoleNames(after) == RoleNames(with);
    OwnNamesFold(db.fold);
    GroupingOk(db.fold, RoleNames(after), user, BaseName(b));
    NamesStay(with, after);
    BaseOneBase(c, db, user, b, version);
  }

  lemma BaseOneBase(c: Config, db: Db, user: nat, b: Base, version: string)
    requires OneBase(db.rules)
    ensures OneBase(BaseEnsured(c, db, user, b, version).rules)
  {
    var after := BaseEnsured(c, db, user, b, version);
    forall u: nat ensures !(GUEST in RolesOf(after.rules, u) && MEMBER in RolesOf(after.rules, u)) {
      BaseIsExact(c, db, user, b, version, u);
    }
  }

  lemma GrantInv(db: Db, user: nat, version: string)
    requires Inv(db)
    ensures Inv(AdminGranted(db, user, version))
  {
    var after := AdminGranted(db, user, version);
    OwnNamesFold(db.fold);
    BuiltinKeepsRoles(db, SUPER_ADMIN);
    assert RoleNames(after) == RoleNames(db) + {SUPER_ADMIN};
    GroupingOk(db.fold, RoleNames(after), user, SUPER_ADMIN);
    NamesStay(db, after);
    GrantOneBase(db, user, version);
  }

  lemma GrantOneBase(db: Db, user: nat, version: string)
    requires OneBase(db.rules)
    ensures OneBase(AdminGranted(db, user, version).rules)
  {
    var after := AdminGranted(db, user, version);
    NamesDiffer();
    forall u: nat ensures !(GUEST in RolesOf(after.rules, u) && MEMBER in RolesOf(after.rules, u)) {
      RolesAfterGrant(db, user, version, u);
    }
  }

  lemma UserCreatedInv(db: Db)
    requires Inv(db) && db.nextUser <= MAX_UINT64
    ensures Inv(UserCreated(db))
  {
    NamesStay(db, UserCreated(db));
  }

  lemma StatusInv(db: Db, user: nat, status: Status)
    requires Inv(db) && user in db.users
    ensures Inv(StatusSet(db, user, status))
  {
    NamesStay(db, StatusSet(db, user, status));
  }

  /** Every transaction keeps the invariant: unique valid role names, rules that name existing roles in
      some spelling, at most one base role per user, session versions of at least one. */
  lemma StepKeepsInv(c: Config, db: Db, op: Op, version: string)
    requires Inv(db)
    ensures Inv(Apply(c, db, op, version))
  {
    if OutcomeOf(c, db, op) == Done {
      match op
      case SetUserRoles(user, roles) => AssignmentKeepsInv(db, user, roles, version);
      case CreateRole(name, builtin) => RoleCreatedInv(db, name, builtin);
      case DeleteRole(role) => DeletedInv(db, role, version);
      case SetPermissions(role, grants) => PermissionsInv(db, role, grants, version);
      case EnsureBuiltin(b) => BuiltinInv(c, db, b, version);
      case EnsureBase(user, b) => BaseInv(c, db, user, b, version);
      case GrantSuperAdmin(user) => GrantInv(db, user, version);
      case _ => AccountsKeepInv(c, db, op, version);
    }
  }

  lemma AssignmentKeepsInv(db: Db, user: nat, roles: seq<string>, version: string)
    requires Inv(db) && RolesOutcome(db, user, roles) == Done
    ensures Inv(RolesReplaced(db, user, WantedRoles(db, user, roles), version))
  {
    WantedHasOneBase(db, user, roles);
    ReplacedInv(db, user, WantedRoles(db, user, roles), version);
  }

  lemma AccountsKeepInv(c: Config, db: Db, op: Op, version: string)
    requires Inv(db) && OutcomeOf(c, db, op) == Done
    requires op.DisableUser? || op.EnableUser? || op.ChangePassword? || op.CreateUser? || op.CreateGuestUser?
    ensures Inv(Apply(c, db, op, version))
  {
    match op
    case DisableUser(user) => StatusInv(db, user, Disabled);
    case EnableUser(user) => StatusInv(db, user, Active);
    case ChangePassword(user) => StatusInv(db, user, db.users[user].status);
    case CreateUser => UserCreatedInv(db);
    case CreateGuestUser =>
      UserCreatedInv(db);
      BaseInv(c, UserCreated(db), db.nextUser, Guest, version);
      GuestStep(c, db, version);
  }

  lemma GuestStep(c: Config, db: Db, version: string)
    requires db.nextUser <= MAX_UINT64
    ensures Apply(c, db, CreateGuestUser, version) == BaseEnsured(c, UserCreated(db), db.nextUser, Guest, version)
  {
  }

  lemma {:induction false} RunKeepsInv(c: Config, db: Db, calls: seq<Call>)
    requires Inv(db)
    ensures Inv(Run(c, db, calls))
    decreases |calls|
  {
    if calls != [] {
      StepKeepsInv(c, db, calls[0].op, calls[0].version);
      RunKeepsInv(c, Apply(c, db, calls[0].op, calls[0].version), calls[1..]);
    }
  }

  // ---------------------------------------------------------------- exactly one base role

  /** Right after an accepted role assignment the user has the requested roles and one base role,
      the same one as before; nobody else's roles change. */
  lemma AssignmentIsExact(c: Config, db: Db, user: nat, roles: seq<string>, version: string, u: nat)
    requires OutcomeOf(c, db, SetUserRoles(user, roles)) == Done
    ensures var after := RolesOf(Apply(c, db, SetUserRoles(user, roles), version).rules, u);
      if u != user then after == RolesOf(db.rules, u)
      else
        && (GUEST in after <==> MEMBER !in after) && (MEMBER in after <==> MEMBER in RolesOf(db.rules, u))
        && forall n :: n != GUEST && n != MEMBER ==> (n in after <==> n != "" && Occurs(roles, n))
  {
    RolesAfterReplacement(db, user, WantedRoles(db, user, roles), version, u);
    WantedHasOneBase(db, user, roles);
    UniqueCorrect(roles);
    NamesDiffer();
  }

  /** `b` is the only base role among the roles, in any spelling; all other roles are as before. */
  ghost predicate OnlyBaseIs(fold: Collation, before: set<string>, after: set<string>, b: Base) {
    && (GUEST in after <==> b == Guest) && (MEMBER in after <==> b == Member)
    && (forall n :: n in after && SqlBaseName(fold, n) ==> n == BaseName(b))
    && (forall n :: !SqlBaseName(fold, n) ==> (n in after <==> n in before))
  }

  /** Base-role reconciliation selects exactly the given base role, removes every spelling of either,
      and keeps all other roles. */
  lemma BaseIsExact(c: Config, db: Db, user: nat, b: Base, version: string, u: nat)
    ensures var before, after := RolesOf(db.rules, u), RolesOf(BaseEnsured(c, db, user, b, version).rules, u);
      if u == user then OnlyBaseIs(db.fold, before, after, b) else after == before
  {
    RolesAfterBase(c, db, user, b, version, u);
    BaseSwapped(db.fold, RolesOf(db.rules, u), b);
  }

  lemma BaseSwapped(fold: Collation, names: set<string>, b: Base)
    ensures OnlyBaseIs(fold, names, names - BasesIn(fold, names) + {BaseName(b)}, b)
  {
    NamesDiffer();
  }

  // ---------------------------------------------------------------- spelling of role names

  /** `ptype` and `v0` hold the service's own lower-case text, for which the collation and exact
      comparison agree. */
  lemma OwnColumnsAreLower(db: Db, r: Rule)
    requires Inv(db) && r in db.rules
    ensures db.fold(r.ptype) == r.ptype && db.fold(r.v0) == r.v0
  {
    assert RuleOk(db.fold, RoleNames(db), r);
    if r.ptype == "p" {
      ValidNameFolds(db.fold, r.v0);
    } else {
      var u: nat :| r == Grouping(u, r.v1);
      SubjectIsLower(db.fold, u);
    }
    assert OwnText("p") && OwnText("g");
  }

  lemma SubjectIsLower(fold: Collation, user: nat)
    requires IsCollation(fold)
    ensures fold(Subject(user)) == Subject(user)
  {
    DecimalOfFormat(user);
    var s, n := Subject(user), |USER_PREFIX|;
    forall i | 0 <= i < |s| ensures IsLower(s[i]) || IsDigit(s[i]) || s[i] == ':' {
      assert i >= n ==> s[i] == FormatUint(user)[i - n];
      assert i < n ==> s[i] == USER_PREFIX[i];
    }
    assert OwnText(s);
  }

  /** The names a request asks for, as the service normalises them, match the role pattern. */
  ghost predicate PatternRequest(op: Op) {
    op.SetUserRoles? ==> forall n :: n in Unique(op.roles) ==> ValidRoleName(n)
  }

  /** An accepted assignment keeps every rule naming a role exactly if and only if each requested name
      is a role name as written, that is, if and only if each matches the role pattern. */
  lemma AssignmentKeepsExactIff(c: Config, db: Db, user: nat, roles: seq<string>, version: string)
    requires Inv(db) && Exact(db) && OutcomeOf(c, db, SetUserRoles(user, roles)) == Done
    ensures Exact(Apply(c, db, SetUserRoles(user, roles), version)) <==>
      forall n :: n in Unique(roles) ==> n in RoleNames(db)
    ensures Exact(Apply(c, db, SetUserRoles(user, roles), version)) <==> PatternRequest(SetUserRoles(user, roles))
  {
    ReplacementIsExactIff(db, user, WantedRoles(db, user, roles), version);
    WantedAreRoles(db, user, roles);
  }

  /** Known names are role names exactly when they match the role pattern. */
  lemma KnownName(db: Db, names: set<string>, n: string)
    requires IsCollation(db.fold) && RolesOk(db) && Known(db, names) && n in names
    ensures n in RoleNames(db) <==> ValidRoleName(n)
  {
    assert db.fold(n) in FoldSet(db.fold, names);
    if ValidRoleName(n) { ValidNameFolds(db.fold, n); }
  }

  lemma WantedAreRoles(db: Db, user: nat, roles: seq<string>)
    requires IsCollation(db.fold) && RolesOk(db) && Known(db, WantedRoles(db, user, roles))
    ensures WantedRoles(db, user, roles) <= RoleNames(db) <==> forall n :: n in Unique(roles) ==> n in RoleNames(db)
    ensures WantedRoles(db, user, roles) <= RoleNames(db) <==> PatternRequest(SetUserRoles(user, roles))
  {
    var wanted := WantedRoles(db, user, roles);
    OwnNamesFold(db.fold);
    KnownName(db, wanted, BaseName(BaseOf(db.rules, user)));
    forall n | n in Unique(roles) ensures n in wanted && (n in RoleNames(db) <==> ValidRoleName(n)) {
      KnownName(db, wanted, n);
    }
  }

  lemma ReplacementIsExactIff(db: Db, user: nat, names: set<string>, version: string)
    requires Exact(db)
    ensures Exact(RolesReplaced(db, user, names, version)) <==> names <= RoleNames(db)
  {
    var after := RolesReplaced(db, user, names, version);
    assert RoleNames(after) == RoleNames(db);
    if Exact(after) {
      forall n | n in names ensures n in RoleNames(db) { assert Grouping(user, n) in after.rules; }
    }
  }

  lemma GrowingNamesKeepExact(before: Db, after: Db)
    requires Exact(before) && RoleNames(before) <= RoleNames(after)
    requires forall r :: r in after.rules && r.ptype == "g" ==> r in before.rules || r.v1 in RoleNames(after)
    ensures Exact(after)
  {
  }

  lemma DeletedExact(db: Db, role: nat, version: string)
    requires Inv(db) && Exact(db) && DeleteOutcome(db, role) == Done
    ensures Exact(RoleDeleted(db, role, version))
  {
    DeletedInv(db, role, version);
  }

  lemma BuiltinExact(c: Config, db: Db, b: Base, version: string)
    requires Inv(db) && Exact(db)
    ensures Exact(BuiltinEnsured(c, db, b, version))
  {
    var after := BuiltinEnsured(c, db, b, version);
    OwnNamesFold(db.fold);
    BuiltinKeepsRoles(db, BaseName(b));
    assert RoleNames(after) == RoleNames(WithBuiltin(db, BaseName(b)));
    BuiltinGroupings(c, db, b, version);
    GrowingNamesKeepExact(db, after);
  }

  lemma GrantExact(db: Db, user: nat, version: string)
    requires Inv(db) && Exact(db)
    ensures Exact(AdminGranted(db, user, version))
  {
    var after := AdminGranted(db, user, version);
    OwnNamesFold(db.fold);
    BuiltinKeepsRoles(db, SUPER_ADMIN);
    assert RoleNames(after) == RoleNames(db) + {SUPER_ADMIN};
    GrowingNamesKeepExact(db, after);
  }

  lemma RoleCreatedExact(db: Db, name: string, builtin: bool)
    requires Inv(db) && Exact(db)
    ensures Exact(RoleCreated(db, name, builtin))
  {
    var after := RoleCreated(db, name, builtin);
    AddedNames(db, db.nextRole, Role(Trim(name), builtin));
    assert RoleNames(after) == RoleNames(db) + {Trim(name)};
    GrowingNamesKeepExact(db, after);
  }

  lemma BaseExact(c: Config, db: Db, user: nat, b: Base, version: string)
    requires Inv(db) && Exact(db)
    ensures Exact(BaseEnsured(c, db, user, b, version))
  {
    var after := BaseEnsured(c, db, user, b, version);
    OwnNamesFold(db.fold);
    BuiltinKeepsRoles(db, BaseName(b));
    assert RoleNames(after) == RoleNames(WithBuiltin(db, BaseName(b)));
    BuiltinGroupings(c, db, b, version);
    GrowingNamesKeepExact(db, after);
  }

  lemma SameNamesKeepExact(db: Db, after: Db)
    requires Exact(db) && after.roles == db.roles && forall r: Rule :: r.ptype == "g" && r in after.rules ==>
        r in db.rules
    ensures Exact(after)
  {
    assert RoleNames(after) == RoleNames(db);
  }

  lemma StepKeepsExact(c: Config, db: Db, op: Op, version: string)
    requires Inv(db) && Exact(db) && PatternRequest(op)
    ensures Exact(Apply(c, db, op, version))
  {
    if OutcomeOf(c, db, op) == Done {
      match op
      case SetUserRoles(user, roles) => AssignmentKeepsExactIff(c, db, user, roles, version);
      case DeleteRole(role) => DeletedExact(db, role, version);
      case SetPermissions(role, grants) => SameNamesKeepExact(db, PermissionsSet(db, role, grants, version));
      case EnsureBuiltin(b) => BuiltinExact(c, db, b, version);
      case EnsureBase(user, b) => BaseExact(c, db, user, b, version);
      case GrantSuperAdmin(user) => GrantExact(db, user, version);
      case CreateRole(name, builtin) => RoleCreatedExact(db, name, builtin);
      case _ => AccountsKeepExact(c, db, op, version);
    }
  }

  lemma AccountsKeepExact(c: Config, db: Db, op: Op, version: string)
    requires Inv(db) && Exact(db) && OutcomeOf(c, db, op) == Done
    requires op.DisableUser? || op.EnableUser? || op.ChangePassword? || op.CreateUser? || op.CreateGuestUser?
    ensures Exact(Apply(c, db, op, version))
  {
    match op
    case DisableUser(user) => SameNamesKeepExact(db, StatusSet(db, user, Disabled));
    case EnableUser(user) => SameNamesKeepExact(db, StatusSet(db, user, Active));
    case ChangePassword(user) => SameNamesKeepExact(db, StatusSet(db, user, db.users[user].status));
    case CreateUser => SameNamesKeepExact(db, UserCreated(db));
    case CreateGuestUser =>
      UserCreatedInv(db);
      SameNamesKeepExact(db, UserCreated(db));
      BaseExact(c, UserCreated(db), db.nextUser, Guest, version);
  }

  ghost predicate PatternRequests(calls: seq<Call>) {
    forall i :: 0 <= i < |calls| ==> PatternRequest(calls[i].op)
  }

  /** Over every run whose role requests match the role pattern, every rule names an existing role exactly. */
  lemma {:induction false} RunKeepsExact(c: Config, db: Db, calls: seq<Call>)
    requires Inv(db) && Exact(db) && PatternRequests(calls)
    ensures Exact(Run(c, db, calls))
    decreases |calls|
  {
    if calls != [] {
      var next := Apply(c, db, calls[0].op, calls[0].version);
      StepKeepsInv(c, db, calls[0].op, calls[0].version);
      StepKeepsExact(c, db, calls[0].op, calls[0].version);
      assert PatternRequests(calls[1..]) by {
        forall i | 0 <= i < |calls[1..]| ensures PatternRequest(calls[1..][i].op) {
          assert calls[1..][i] == calls[i + 1];
        }
      }
      RunKeepsExact(c, next, calls[1..]);
    }
  }

  // ---------------------------------------------------------------- an active super administrator stays

  lemma AdminIsNoBase(fold: Collation)
    requires IsCollation(fold)
    ensures !SqlBaseName(fold, SUPER_ADMIN)
  {
    NamesDiffer();
    OwnNamesFold(fold);
  }

  lemma OthersKeepTheRole(c: Config, db: Db, op: Op, version: string, u: nat)
    requires IsCollation(db.fold) && SUPER_ADMIN in RolesOf(db.rules, u) && !op.SetUserRoles?
    ensures SUPER_ADMIN in RolesOf(Apply(c, db, op, version).rules, u)
  {
    if OutcomeOf(c, db, op) == Done {
      match op
      case DeleteRole(role) => SameGroupings(db.rules, RoleDeleted(db, role, version).rules, u);
      case SetPermissions(role, grants) => SameGroupings(db.rules, PermissionsSet(db, role, grants, version).rules, u);
      case EnsureBuiltin(b) => RolesAfterBuiltin(c, db, b, version, u);
      case EnsureBase(user, b) => BaseKeepsTheRole(c, db, user, b, version, u);
      case GrantSuperAdmin(user) => RolesAfterGrant(db, user, version, u);
      case CreateGuestUser =>
        BaseKeepsTheRole(c, UserCreated(db), db.nextUser, Guest, version, u);
        GuestStep(c, db, version);
      case _ => AccountsKeepRules(c, db, op, version);
    }
  }

  lemma AccountsKeepRules(c: Config, db: Db, op: Op, version: string)
    requires op.DisableUser? || op.EnableUser? || op.ChangePassword? || op.CreateUser? || op.CreateRole?
    ensures Apply(c, db, op, version).rules == db.rules
  {
  }

  lemma BaseKeepsTheRole(c: Config, db: Db, user: nat, b: Base, version: string, u: nat)
    requires IsCollation(db.fold) && SUPER_ADMIN in RolesOf(db.rules, u)
    ensures SUPER_ADMIN in RolesOf(BaseEnsured(c, db, user, b, version).rules, u)
  {
    AdminIsNoBase(db.fold);
    BaseIsExact(c, db, user, b, version, u);
  }

  lemma RoleOpsKeepUsers(c: Config, db: Db, op: Op, version: string)
    requires op.CreateRole? || op.DeleteRole? || op.EnsureBuiltin? || op.EnsureBase? || op.GrantSuperAdmin?
    ensures Apply(c, db, op, version).users == db.users
  {
  }

  lemma OthersKeepActive(c: Config, db: Db, op: Op, version: string, u: nat)
    requires UsersOk(db) && IsActive(db, u) && !op.DisableUser?
    ensures IsActive(Apply(c, db, op, version), u)
  {
    if OutcomeOf(c, db, op) == Done {
      match op
      case SetUserRoles(user, roles) =>
        assert RolesReplaced(db, user, WantedRoles(db, user, roles), version).users == Bumped(db.users, {user});
      case SetPermissions(role, grants) =>
        assert PermissionsSet(db, role, grants, version).users
            == Bumped(db.users, Holders(db.fold, db.rules, db.roles[role].name));
      case EnableUser(user) =>
      case ChangePassword(user) =>
      case CreateUser =>
      case CreateGuestUser =>
      case _ => RoleOpsKeepUsers(c, db, op, version);
    }
  }

  /** Apart from role assignment and disabling, no transaction takes the role or the active status
      away from any super administrator. */
  lemma OthersKeepEveryAdmin(c: Config, db: Db, op: Op, version: string, u: nat)
    requires Inv(db) && ActiveAdmin(db, u) && !op.SetUserRoles? && !op.DisableUser?
    ensures ActiveAdmin(Apply(c, db, op, version), u)
  {
    OthersKeepTheRole(c, db, op, version, u);
    OthersKeepActive(c, db, op, version, u);
  }

  /** Who is an active super administrator after a role assignment. */
  lemma AdminAfterAssignment(db: Db, user: nat, names: set<string>, version: string, u: nat)
    ensures ActiveAdmin(RolesReplaced(db, user, names, version), u) <==>
      if u == user then IsActive(db, u) && SUPER_ADMIN in names else ActiveAdmin(db, u)
  {
    RolesAfterReplacement(db, user, names, version, u);
    assert RolesReplaced(db, user, names, version).users == Bumped(db.users, {user});
  }

  /** An accepted assignment takes the last active super administrator away exactly when it drops the
      role from the only one; it is accepted then only because another active account holds another
      spelling of the name, which the SQL guard counts and the enforcer does not. */
  lemma AssignmentLosesAdminIff(c: Config, db: Db, user: nat, roles: seq<string>, version: string)
    requires HasActiveAdmin(db) && OutcomeOf(c, db, SetUserRoles(user, roles)) == Done
    ensures !HasActiveAdmin(Apply(c, db, SetUserRoles(user, roles), version))
            <==> SUPER_ADMIN !in Unique(roles) && !OtherActiveAdmin(db, user)
    ensures !HasActiveAdmin(Apply(c, db, SetUserRoles(user, roles), version)) ==> OtherSqlAdmin(db, user)
  {
    var names, after := WantedRoles(db, user, roles), Apply(c, db, SetUserRoles(user, roles), version);
    NamesDiffer();
    if OtherActiveAdmin(db, user) {
      var v: nat :| v != user && ActiveAdmin(db, v);
      AdminAfterAssignment(db, user, names, version, v);
    } else {
      var u: nat :| ActiveAdmin(db, u);
      AdminAfterAssignment(db, user, names, version, user);
      forall v: nat ensures ActiveAdmin(after, v) ==> v == user {
        AdminAfterAssignment(db, user, names, version, v);
      }
    }
  }

  /** Disabling takes the last active super administrator away exactly when it is the only one and,
      again, another active account holds another spelling. */
  lemma DisablingLosesAdminIff(c: Config, db: Db, user: nat, version: string)
    requires HasActiveAdmin(db) && OutcomeOf(c, db, DisableUser(user)) == Done
    ensures !HasActiveAdmin(Apply(c, db, DisableUser(user), version)) <==> !OtherActiveAdmin(db, user)
    ensures !HasActiveAdmin(Apply(c, db, DisableUser(user), version)) ==> OtherSqlAdmin(db, user)
  {
    DisabledAdmins(db, user);
    if !OtherActiveAdmin(db, user) {
      var u: nat :| ActiveAdmin(db, u);
      assert db.fold(SUPER_ADMIN) in FoldSet(db.fold, RolesOf(db.rules, u));
    }
  }

  lemma DisabledAdmins(db: Db, user: nat)
    requires user in db.users
    ensures HasActiveAdmin(StatusSet(db, user, Disabled)) <==> OtherActiveAdmin(db, user)
  {
    var after := StatusSet(db, user, Disabled);
    if OtherActiveAdmin(db, user) {
      var v: nat :| v != user && ActiveAdmin(db, v);
      assert ActiveAdmin(after, v);
    }
    if HasActiveAdmin(after) {
      var v: nat :| ActiveAdmin(after, v);
      assert v != user && ActiveAdmin(db, v);
    }
  }

  /** Another spelling of the role: the collation takes it for the name, the enforcer does not. */
  predicate Respelled(fold: Collation, x: string) { fold(x) == SUPER_ADMIN && x != SUPER_ADMIN }

  /** Nobody is assigned another spelling of the role. */
  ghost predicate AdminExact(db: Db) { forall r :: r in db.rules && r.ptype == "g" ==> !Respelled(db.fold, r.v1) }

  lemma ExactIsAdminExact(db: Db)
    requires Inv(db) && Exact(db)
    ensures AdminExact(db)
  {
    forall r | r in db.rules && r.ptype == "g" ensures !Respelled(db.fold, r.v1) { ValidNameFolds(db.fold, r.v1); }
  }

  /** The guards then count exactly the super administrators. */
  lemma AdminHolds(db: Db, u: nat)
    requires IsCollation(db.fold) && AdminExact(db)
    ensures SqlHolds(db.fold, db.rules, u, SUPER_ADMIN) <==> SUPER_ADMIN in RolesOf(db.rules, u)
  {
    OwnNamesFold(db.fold);
    forall n | n in RolesOf(db.rules, u) ensures !Respelled(db.fold, n) {
      var r :| r in db.rules && AssignsTo(r, u) && r.v1 == n;
    }
  }

  lemma GuardCountsAdmins(db: Db, user: nat)
    requires IsCollation(db.fold) && AdminExact(db)
    ensures OtherSqlAdmin(db, user) <==> OtherActiveAdmin(db, user)
  {
    forall u: nat ensures SqlActiveAdmin(db, u) <==> ActiveAdmin(db, u) { AdminHolds(db, u); }
  }

  lemma StepKeepsAnAdmin(c: Config, db: Db, op: Op, version: string)
    requires Inv(db) && AdminExact(db) && HasActiveAdmin(db)
    ensures HasActiveAdmin(Apply(c, db, op, version))
  {
    if OutcomeOf(c, db, op) == Done {
      if op.SetUserRoles? {
        GuardCountsAdmins(db, op.user);
        AssignmentLosesAdminIff(c, db, op.user, op.roles, version);
      } else if op.DisableUser? {
        GuardCountsAdmins(db, op.user);
        DisablingLosesAdminIff(c, db, op.user, version);
      } else {
        var u: nat :| ActiveAdmin(db, u);
        OthersKeepEveryAdmin(c, db, op, version, u);
      }
    }
  }

  /** The names the service assigns by itself, and those a request asks for. */
  predicate AssignedBy(op: Op, n: string) {
    || n == GUEST || n == MEMBER || n == SUPER_ADMIN
    || (op.SetUserRoles? && n in Unique(op.roles) && |n| <= COLUMN_CHARS)
  }

  ghost predicate AssignsOnly(before: Db, after: Db, op: Op) {
    forall r :: r in after.rules && r.ptype == "g" ==> r in before.rules || AssignedBy(op, r.v1)
  }

  lemma StepAssignsOnly(c: Config, db: Db, op: Op, version: string)
    ensures AssignsOnly(db, Apply(c, db, op, version), op)
  {
    if OutcomeOf(c, db, op) == Done {
      match op
      case SetUserRoles(user, roles) => RequestAssignsOnly(db, user, roles, version);
      case DeleteRole(role) =>
      case SetPermissions(role, grants) => PermissionsAssignNothing(db, role, grants, version);
      case EnsureBuiltin(b) => BuiltinGroupings(c, db, b, version);
      case EnsureBase(user, b) => BaseAssignsOnly(c, db, user, b, version, op);
      case GrantSuperAdmin(user) => GrantAssignsOnly(db, user, version);
      case CreateGuestUser =>
        GuestStep(c, db, version);
        BaseAssignsOnly(c, UserCreated(db), db.nextUser, Guest, version, op);
      case _ => AccountsKeepRules(c, db, op, version);
    }
  }

  lemma RequestAssignsOnly(db: Db, user: nat, roles: seq<string>, version: string)
    requires Fits(WantedRoles(db, user, roles))
    ensures AssignsOnly(db, RolesReplaced(db, user, WantedRoles(db, user, roles), version), SetUserRoles(user, roles))
  {
  }

  lemma PermissionsAssignNothing(db: Db, role: nat, grants: seq<Grant>, version: string)
    requires role in db.roles
    ensures AssignsOnly(db, PermissionsSet(db, role, grants, version), SetPermissions(role, grants))
  {
  }

  lemma GrantAssignsOnly(db: Db, user: nat, version: string)
    ensures AssignsOnly(db, AdminGranted(db, user, version), GrantSuperAdmin(user))
  {
  }

  lemma BaseAssignsOnly(c: Config, db: Db, user: nat, b: Base, version: string, op: Op)
    ensures AssignsOnly(db, BaseEnsured(c, db, user, b, version), op)
  {
    BuiltinGroupings(c, db, b, version);
  }

  /** No name a request asks for, and that fits its column, is another spelling of the super
      administrator role. */
  ghost predicate PlainRequest(fold: Collation, op: Op) {
    op.SetUserRoles? ==> forall n :: n in Unique(op.roles) && |n| <= COLUMN_CHARS ==> !Respelled(fold, n)
  }

  ghost predicate PlainRequests(fold: Collation, calls: seq<Call>) {
    forall i :: 0 <= i < |calls| ==> PlainRequest(fold, calls[i].op)
  }

  /** Names that match the role pattern are no other spelling. */
  lemma PatternRequestIsPlain(fold: Collation, op: Op)
    requires IsCollation(fold) && PatternRequest(op)
    ensures PlainRequest(fold, op)
  {
    if op.SetUserRoles? {
      forall n | n in Unique(op.roles) ensures !Respelled(fold, n) { ValidNameFolds(fold, n); }
    }
  }

  lemma AssignedIsPlain(fold: Collation, op: Op, n: string)
    requires IsCollation(fold) && PlainRequest(fold, op) && AssignedBy(op, n)
    ensures !Respelled(fold, n)
  {
    OwnNamesFold(fold);
    NamesDiffer();
  }

  lemma AssignsOnlyKeepsExact(db: Db, after: Db, op: Op)
    requires IsCollation(db.fold) && AdminExact(db) && PlainRequest(db.fold, op)
    requires AssignsOnly(db, after, op) && after.fold == db.fold
    ensures AdminExact(after)
  {
    forall r | r in after.rules && r.ptype == "g" ensures !Respelled(db.fold, r.v1) {
      if r !in db.rules { AssignedIsPlain(db.fold, op, r.v1); }
    }
  }

  lemma StepKeepsCollation(c: Config, db: Db, op: Op, version: string)
    ensures Apply(c, db, op, version).fold == db.fold
  {
  }

  lemma StepKeepsAdminExact(c: Config, db: Db, op: Op, version: string)
    requires IsCollation(db.fold) && AdminExact(db) && PlainRequest(db.fold, op)
    ensures AdminExact(Apply(c, db, op, version)) && Apply(c, db, op, version).fold == db.fold
  {
    StepAssignsOnly(c, db, op, version);
    StepKeepsCollation(c, db, op, version);
    AssignsOnlyKeepsExact(db, Apply(c, db, op, version), op);
  }

  /** Once an active super administrator exists, one exists after every run in which no role request
      asks for another spelling of the role (`SpellingRuns.AdminStaysIff`: and no larger set of names
      will do). */
  lemma {:induction false} RunKeepsAnAdmin(c: Config, db: Db, calls: seq<Call>)
    requires Inv(db) && AdminExact(db) && HasActiveAdmin(db) && PlainRequests(db.fold, calls)
    ensures HasActiveAdmin(Run(c, db, calls))
    decreases |calls|
  {
    if calls != [] {
      var next := Apply(c, db, calls[0].op, calls[0].version);
      StepKeepsInv(c, db, calls[0].op, calls[0].version);
      StepKeepsAdminExact(c, db, calls[0].op, calls[0].version);
      StepKeepsAnAdmin(c, db, calls[0].op, calls[0].version);
      assert PlainRequests(db.fold, calls[1..]) by {
        forall i | 0 <= i < |calls[1..]| ensures PlainRequest(db.fold, calls[1..][i].op) {
          assert calls[1..][i] == calls[i + 1];
        }
      }
      RunKeepsAnAdmin(c, next, calls[1..]);
    }
  }

  /** In particular after every run whose role requests match the role pattern. */
  lemma PatternRunKeepsAnAdmin(c: Config, db: Db, calls: seq<Call>)
    requires Inv(db) && AdminExact(db) && HasActiveAdmin(db) && PatternRequests(calls)
    ensures HasActiveAdmin(Run(c, db, calls))
  {
    forall i | 0 <= i < |calls| ensures PlainRequest(db.fold, calls[i].op) {
      PatternRequestIsPlain(db.fold, calls[i].op);
    }
    RunKeepsAnAdmin(c, db, calls);
  }

  /** Along the same runs nobody is ever assigned another spelling. */
  lemma {:induction false} RunKeepsAdminExact(c: Config, db: Db, calls: seq<Call>)
    requires Inv(db) && AdminExact(db) && PlainRequests(db.fold, calls)
    ensures AdminExact(Run(c, db, calls)) && Run(c, db, calls).fold == db.fold
    decreases |calls|
  {
    if calls != [] {
      var next := Apply(c, db, calls[0].op, calls[0].version);
      StepKeepsInv(c, db, calls[0].op, calls[0].version);
      StepKeepsAdminExact(c, db, calls[0].op, calls[0].version);
      assert PlainRequests(db.fold, calls[1..]) by {
        forall i | 0 <= i < |calls[1..]| ensures PlainRequest(db.fold, calls[1..][i].op) {
          assert calls[1..][i] == calls[i + 1];
        }
      }
      RunKeepsAdminExact(c, next, calls[1..]);
    }
  }

  /** The refusal to disable is not too eager: it is then given exactly when no active super
      administrator would be left. */
  lemma RefusalIsExact(c: Config, db: Db, user: nat)
    requires Inv(db) && AdminExact(db) && HasActiveAdmin(db) && user in db.users
    ensures OutcomeOf(c, db, DisableUser(user)) == LastSuperAdmin <==> !HasActiveAdmin(StatusSet(db, user, Disabled))
  {
    GuardCountsAdmins(db, user);
    AdminHolds(db, user);
    DisabledAdmins(db, user);
  }

  // ---------------------------------------------------------------- outbox and versions

  /** A transaction that changes the rules leaves exactly one new outbox row, its own. */
  lemma PolicyChangeIsRecorded(c: Config, db: Db, op: Op, version: string)
    ensures var after := Apply(c, db, op, version);
      && (after.outbox == db.outbox || after.outbox == db.outbox + [version])
      && (after.rules != db.rules ==> after.outbox == db.outbox + [version])
  {
  }

  /** Over a run, the outbox only grows, and it has grown if the rules are different. */
  lemma {:induction false} RunIsRecorded(c: Config, db: Db, calls: seq<Call>)
    ensures var after := Run(c, db, calls);
      db.outbox <= after.outbox && (after.rules != db.rules ==> |after.outbox| > |db.outbox|)
    decreases |calls|
  {
    if calls != [] {
      PolicyChangeIsRecorded(c, db, calls[0].op, calls[0].version);
      RunIsRecorded(c, Apply(c, db, calls[0].op, calls[0].version), calls[1..]);
    }
  }

  /** Accounts are never removed and their session versions never fall. */
  lemma VersionsGrow(c: Config, db: Db, op: Op, version: string, u: nat)
    requires Inv(db) && u in db.users
    ensures u in Apply(c, db, op, version).users && Apply(c, db, op, version).users[u].version >= db.users[u].version
  {
    if OutcomeOf(c, db, op) == Done {
      if op.SetPermissions? { PermissionsUsers(c, db, op, version); } else { OthersBump(c, db, op, version, u); }
    }
  }

  lemma PermissionsUsers(c: Config, db: Db, op: Op, version: string)
    requires op.SetPermissions? && OutcomeOf(c, db, op) == Done
    ensures Apply(c, db, op, version).users == Bumped(db.users, Holders(db.fold, db.rules, db.roles[op.role].name))
  {
  }

  lemma {:induction false} RunVersionsGrow(c: Config, db: Db, calls: seq<Call>, u: nat)
    requires Inv(db) && u in db.users
    ensures u in Run(c, db, calls).users && Run(c, db, calls).users[u].version >= db.users[u].version
    decreases |calls|
  {
    if calls != [] {
      var next := Apply(c, db, calls[0].op, calls[0].version);
      VersionsGrow(c, db, calls[0].op, calls[0].version, u);
      StepKeepsInv(c, db, calls[0].op, calls[0].version);
      RunVersionsGrow(c, next, calls[1..], u);
    }
  }

  /** The users whose sessions a transaction is meant to end. */
  ghost predicate Affected(db: Db, op: Op, u: nat) {
    match op
    case SetUserRoles(user, _) => u == user
    case DisableUser(user) => u == user
    case EnableUser(user) => u == user
    case ChangePassword(user) => u == user
    case SetPermissions(role, _) => role in db.roles && SqlHolds(db.fold, db.rules, u, db.roles[role].name)
    case _ => false
  }

  lemma HoldersAreAssigned(db: Db, name: string, u: nat)
    requires Inv(db) && 0 < u <= MAX_UINT64
    ensures u in Holders(db.fold, db.rules, name) <==> SqlHolds(db.fold, db.rules, u, name)
  {
    if u in Holders(db.fold, db.rules, name) {
      var r :| r in db.rules && r.ptype == "g" && db.fold(r.v1) == db.fold(name) && AssignedId(r) == Some(u);
      assert RuleOk(db.fold, RoleNames(db), r);
      var v: nat :| r == Grouping(v, r.v1);
      AssignedIdOfGrouping(v, r.v1);
      assert AssignsTo(r, u) && r.v1 in RolesOf(db.rules, u);
    }
    if SqlHolds(db.fold, db.rules, u, name) {
      var n :| n in RolesOf(db.rules, u) && db.fold(n) == db.fold(name);
      var r :| r in db.rules && AssignsTo(r, u) && r.v1 == n;
      ParseOfSubject(u);
      assert AssignedId(r) == Some(u);
    }
  }

  lemma OthersBump(c: Config, db: Db, op: Op, version: string, u: nat)
    requires UsersOk(db) && u in db.users && OutcomeOf(c, db, op) == Done && !op.SetPermissions?
    ensures u in Apply(c, db, op, version).users
    ensures Apply(c, db, op, version).users[u].version == db.users[u].version + if Affected(db, op, u) then 1 else 0
  {
    if op.CreateRole? || op.DeleteRole? || op.EnsureBuiltin? || op.EnsureBase? || op.GrantSuperAdmin? {
      RoleOpsKeepUsers(c, db, op, version);
    }
  }

  /** A successful transaction raises the session version of the affected users by one, of no others. */
  lemma BumpIsExact(c: Config, db: Db, op: Op, version: string, u: nat)
    requires Inv(db) && u in db.users && OutcomeOf(c, db, op) == Done
    ensures Apply(c, db, op, version).users[u].version == db.users[u].version + if Affected(db, op, u) then 1 else 0
  {
    if op.SetPermissions? {
      HoldersAreAssigned(db, db.roles[op.role].name, u);
      PermissionsUsers(c, db, op, version);
    } else {
      OthersBump(c, db, op, version, u);
    }
  }
}
