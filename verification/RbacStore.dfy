/** The transactions of the permission and user services as they change the tables, each proved to
    be one step of the specification. */
module RbacStore {
  import opened Options
  import opened Ordering
  import opened Text
  import opened Uniques
  import opened PolicyRules
  import opened Rbac
  import opened RbacSafety

  // ---------------------------------------------------------------- counting rows

  function Names(names: seq<string>): set<string> { set n | n in names }

  function Folds(fold: Collation, names: seq<string>): set<string> { FoldSet(fold, Names(names)) }

  /** The rows that `name IN (…)` selects. */
  function RowsNamed(fold: Collation, roles: map<nat, Role>, names: seq<string>): set<nat> {
    set id | id in roles && fold(roles[id].name) in Folds(fold, names)
  }

  lemma {:induction false} DistinctImage(ids: set<nat>, roles: map<nat, Role>)
    requires ids <= roles.Keys && UniqueNames(roles)
    ensures |set id | id in ids :: roles[id].name| == |ids|
  {
    if ids != {} {
      var x :| x in ids;
      DistinctImage(ids - {x}, roles);
      assert (set id | id in ids :: roles[id].name) == (set id | id in ids - {x} :: roles[id].name) + {roles[x].name};
    }
  }

  lemma {:induction false} NoRepeatsSize(names: seq<string>)
    requires NoRepeats(names)
    ensures |Names(names)| == |names|
  {
    if names != [] {
      NoRepeatsSize(names[1..]);
      assert names == [names[0]] + names[1..];
      assert Names(names) == {names[0]} + Names(names[1..]);
    }
  }

  lemma {:induction false} FoldSetSize(fold: Collation, names: set<string>)
    ensures |FoldSet(fold, names)| <= |names|
    ensures |FoldSet(fold, names)| == |names| <==> FoldsApart(fold, names)
  {
    if names != {} {
      var x :| x in names;
      var rest := names - {x};
      FoldSetSize(fold, rest);
      assert names == {x} + rest;
      assert FoldSet(fold, names) == {fold(x)} + FoldSet(fold, rest);
      FoldsApartMore(fold, rest, x);
    }
  }

  lemma FoldsApartMore(fold: Collation, names: set<string>, x: string)
    requires x !in names
    ensures FoldsApart(fold, {x} + names) <==> FoldsApart(fold, names) && fold(x) !in FoldSet(fold, names)
  {
    assert forall n :: n in names ==> n in {x} + names;
    if FoldsApart(fold, names) && fold(x) !in FoldSet(fold, names) {
      forall a, b | a in {x} + names && b in {x} + names && fold(a) == fold(b) ensures a == b {
        assert a in names ==> fold(a) in FoldSet(fold, names);
        assert b in names ==> fold(b) in FoldSet(fold, names);
      }
    }
  }

  /** The role names found are the folded names that are roles. */
  lemma FoundNames(db: Db, names: seq<string>)
    requires IsCollation(db.fold) && RolesOk(db)
    ensures |RowsNamed(db.fold, db.roles, names)| == |Folds(db.fold, names) * RoleNames(db)|
  {
    var ids := RowsNamed(db.fold, db.roles, names);
    var found := set id | id in ids :: db.roles[id].name;
    DistinctImage(ids, db.roles);
    forall n ensures n in found <==> n in Folds(db.fold, names) * RoleNames(db) {
      if n in found {
        var id :| id in ids && db.roles[id].name == n;
        ValidNameFolds(db.fold, n);
      }
      if n in Folds(db.fold, names) * RoleNames(db) {
        var id :| id in db.roles && db.roles[id].name == n;
        ValidNameFolds(db.fold, n);
        assert id in ids;
      }
    }
    assert found == Folds(db.fold, names) * RoleNames(db);
  }

  /** The existence test compares a row count with a list length.  They are equal exactly when every
      name is that of a role in some spelling and no two names are spellings of one role. */
  lemma CountMeansKnown(db: Db, names: seq<string>)
    requires IsCollation(db.fold) && RolesOk(db) && NoRepeats(names)
    ensures |RowsNamed(db.fold, db.roles, names)| == |names| <==> Known(db, Names(names))
  {
    var folds, roles := Folds(db.fold, names), RoleNames(db);
    FoundNames(db, names);
    NoRepeatsSize(names);
    FoldSetSize(db.fold, Names(names));
    SubsetCardinality(folds * roles, folds);
    if |folds * roles| == |folds| { SubsetSameSize(folds * roles, folds); }
    if folds <= roles { assert folds * roles == folds; }
  }

  // ---------------------------------------------------------------- loops over rows

  method HasRole(rows: seq<Rule>, name: string) returns (found: bool)
    ensures found == exists i :: 0 <= i < |rows| && rows[i].v1 == name
  {
    found := false;
    for i := 0 to |rows|
      invariant found == exists j :: 0 <= j < i && rows[j].v1 == name
    {
      found := found || rows[i].v1 == name;
    }
  }

  /** The same condition evaluated by SQL. */
  method HasSqlRole(fold: Collation, rows: seq<Rule>, name: string) returns (found: bool)
    ensures found == exists i :: 0 <= i < |rows| && fold(rows[i].v1) == fold(name)
  {
    found := false;
    for i := 0 to |rows|
      invariant found == exists j :: 0 <= j < i && fold(rows[j].v1) == fold(name)
    {
      found := found || fold(rows[i].v1) == fold(name);
    }
  }

  method Contains(values: seq<string>, want: string) returns (found: bool)
    ensures found == (want in values)
  {
    for i := 0 to |values|
      invariant want !in values[..i]
    {
      if values[i] == want {
        return true;
      }
    }
    assert values[..|values|] == values;
    return false;
  }

  method CheckMethods(c: Config, path: string, methods: seq<string>) returns (r: Outcome)
    ensures r == MethodsOutcome(c, path, methods)
  {
    for i := 0 to |methods|
      invariant MethodsOutcome(c, path, methods) == MethodsOutcome(c, path, methods[i..])
    {
      if !HttpMethod(methods[i]) {
        return InvalidPermission;
      }
      if !(path in c.catalog && methods[i] in c.catalog[path]) {
        return UnknownPermission;
      }
    }
    r := Done;
  }

  /** The entry holds the path and the expression of the rule. */
  ghost predicate EntryFor(g: Grant, entry: (string, string)) {
    forall role {:trigger GrantRule(role, g)} :: GrantRule(role, g) == Policy(role, entry.0, entry.1)
  }

  ghost predicate EntriesFor(grants: seq<Grant>, entries: seq<(string, string)>) {
    |entries| == |grants| && forall i :: 0 <= i < |grants| ==> EntryFor(grants[i], entries[i])
  }

  /** Validation of one entry; on success the path and expression of its rule. */
  method CheckGrant(c: Config, g: Grant) returns (r: Outcome, entry: (string, string))
    ensures r == GrantOutcome(c, g)
    ensures r == Done ==> EntryFor(g, entry)
  {
    entry := ("", "");
    if !(API_PREFIX <= g.path) {
      return InvalidPermission, entry;
    }
    var methods := UniqueStrings(Uppers(g.methods));
    if |methods| == 0 {
      return InvalidPermission, entry;
    }
    r := CheckMethods(c, g.path, methods);
    if r != Done {
      return;
    }
    var expression := methods[0];
    if |methods| > 1 {
      expression := "(" + Join(methods, '|') + ")";
    }
    entry := (g.path, expression);
  }

  /** Validation of a whole request; on success what to insert. */
  method CheckGrants(c: Config, grants: seq<Grant>) returns (r: Outcome, rules: seq<(string, string)>)
    ensures r == GrantsOutcome(c, grants)
    ensures r == Done ==> EntriesFor(grants, rules)
  {
    rules := [];
    for i := 0 to |grants|
      invariant GrantsOutcome(c, grants) == GrantsOutcome(c, grants[i..])
      invariant EntriesFor(grants[..i], rules)
    {
      assert grants[i..][0] == grants[i] && grants[i..][1..] == grants[i + 1..];
      var entry;
      r, entry := CheckGrant(c, grants[i]);
      if r != Done {
        return;
      }
      rules := rules + [entry];
      assert grants[..i + 1] == grants[..i] + [grants[i]];
    }
    assert grants[..|grants|] == grants;
    r := Done;
  }

  // ---------------------------------------------------------------- the tables

  ghost predicate NoAdminAmong(db: Db, ids: set<nat>, user: nat) {
    forall u :: u in ids && u != user ==> !SqlActiveAdmin(db, u)
  }

  lemma NoAdminAmongOneMore(db: Db, ids: set<nat>, x: nat, user: nat)
    ensures NoAdminAmong(db, ids + {x}, user) <==> NoAdminAmong(db, ids, user) && (x != user ==> !SqlActiveAdmin(db, x))
  {
  }

  lemma MoreNewRows(fold: Collation, rules: map<Rule, bool>, rows: seq<Rule>, k: nat)
    requires k < |rows|
    ensures NewRows(fold, rules, rows[..k + 1])
         == NewRows(fold, rules, rows[..k])
            + if FirstOfKey(fold, rows, k) && !Clashes(fold, rules, rows[k]) then {rows[k]} else {}
  {
    NewRowsOfPrefix(fold, rules, rows, k);
    NewRowsOfPrefix(fold, rules, rows, k + 1);
  }

  predicate IsNew(fold: Collation, rules: map<Rule, bool>, rows: seq<Rule>, i: nat)
    requires i < |rows|
  {
    FirstOfKey(fold, rows, i) && !Clashes(fold, rules, rows[i])
  }

  lemma PrefixIsNew(fold: Collation, rules: map<Rule, bool>, rows: seq<Rule>, k: nat, i: nat)
    requires i < k <= |rows|
    ensures IsNew(fold, rules, rows[..k], i) <==> IsNew(fold, rules, rows, i)
  {
    assert forall j :: 0 <= j <= i ==> rows[..k][j] == rows[j];
  }

  lemma NewRowsOfPrefix(fold: Collation, rules: map<Rule, bool>, rows: seq<Rule>, k: nat)
    requires k <= |rows|
    ensures NewRows(fold, rules, rows[..k]) == set i | 0 <= i < k && IsNew(fold, rules, rows, i) :: rows[i]
  {
    var fewer := rows[..k];
    forall i | 0 <= i < k ensures IsNew(fold, rules, fewer, i) <==> IsNew(fold, rules, rows, i) {
      PrefixIsNew(fold, rules, rows, k, i);
    }
    forall r ensures r in NewRows(fold, rules, fewer) <==>
        exists i :: 0 <= i < k && IsNew(fold, rules, rows, i) && r == rows[i]
    {
      if r in NewRows(fold, rules, fewer) {
        var i :| 0 <= i < |fewer| && FirstOfKey(fold, fewer, i) && !Clashes(fold, rules, fewer[i]) && r == fewer[i];
        assert IsNew(fold, rules, fewer, i);
      }
      if i :| 0 <= i < k && IsNew(fold, rules, rows, i) && r == rows[i] { assert IsNew(fold, rules, fewer, i); }
    }
  }

  lemma ClashAfterInserts(fold: Collation, rules: map<Rule, bool>, rows: seq<Rule>, k: nat, managed: bool)
    requires k < |rows|
    ensures Clashes(fold, InsertRules(fold, rules, rows[..k], managed), rows[k])
        <==> Clashes(fold, rules, rows[k]) || !FirstOfKey(fold, rows, k)
  {
    var fewer := rows[..k];
    if !FirstOfKey(fold, rows, k) {
      var j :| 0 <= j < k && SameKey(fold, rows[j], rows[k]);
      var f := FirstExists(fold, fewer, j);
      assert SameKey(fold, fewer[f], rows[k]);
      if Clashes(fold, rules, fewer[f]) {
        var r :| r in rules && SameKey(fold, r, fewer[f]);
        assert SameKey(fold, r, rows[k]);
      } else {
        assert fewer[f] in NewRows(fold, rules, fewer);
      }
    }
    forall r | r in NewRows(fold, rules, fewer) && SameKey(fold, r, rows[k]) ensures !FirstOfKey(fold, rows, k) {
      var i :| 0 <= i < k && FirstOfKey(fold, fewer, i) && !Clashes(fold, rules, fewer[i]) && r == fewer[i];
      assert rows[i] == r;
    }
  }

  /** Inserting row by row is inserting the list. */
  lemma InsertStep(fold: Collation, rules: map<Rule, bool>, rows: seq<Rule>, k: nat, managed: bool)
    requires k < |rows|
    ensures InsertRow(fold, InsertRules(fold, rules, rows[..k], managed), rows[k], managed)
        == InsertRules(fold, rules, rows[..k + 1], managed)
  {
    var before := InsertRules(fold, rules, rows[..k], managed);
    MoreNewRows(fold, rules, rows, k);
    ClashAfterInserts(fold, rules, rows, k, managed);
    if Clashes(fold, before, rows[k]) {
      assert NewRows(fold, rules, rows[..k + 1]) == NewRows(fold, rules, rows[..k]);
    } else {
      StoredClashes(fold, before, rows[k]);
      AddOne(rules, NewRows(fold, rules, rows[..k]), rows[k], managed);
    }
  }

  lemma AddOne(rules: map<Rule, bool>, rows: set<Rule>, row: Rule, managed: bool)
    requires row !in AddRules(rules, rows, managed)
    ensures AddRules(rules, rows, managed)[row := managed] == AddRules(rules, rows + {row}, managed)
  {
  }

  lemma StoredClashes(fold: Collation, rules: map<Rule, bool>, row: Rule)
    ensures row in rules ==> Clashes(fold, rules, row)
  {
    assert SameKey(fold, row, row);
  }

  class Store {
    const fold: Collation
    var users: map<nat, Account>
    var nextUser: nat
    var roles: map<nat, Role>
    var nextRole: nat
    var rules: map<Rule, bool>
    var outbox: seq<string>

    ghost function Value(): Db
      reads this
    {
      Db(users, nextUser, roles, nextRole, rules, outbox, fold)
    }

    constructor (fold: Collation)
      ensures Value() == Empty(fold)
    {
      this.fold := fold;
      users, nextUser, roles, nextRole, rules, outbox := map[], 1, map[], 1, map[], [];
    }

    method FindAssignments(user: nat) returns (rows: seq<Rule>)
      ensures forall r :: r in rows <==> r in rules && AssignsTo(r, user)
    {
      rows := [];
      var left := rules.Keys;
      while left != {}
        invariant left <= rules.Keys
        invariant forall r :: r in rows <==> r in rules.Keys - left && AssignsTo(r, user)
        decreases left
      {
        var r :| r in left;
        left := left - {r};
        if AssignsTo(r, user) {
          rows := rows + [r];
        }
      }
    }

    /** `ptype = 'g' AND v1 = ?` */
    method FindHolders(name: string) returns (rows: seq<Rule>)
      ensures forall r :: r in rows <==> r in rules && r.ptype == "g" && fold(r.v1) == fold(name)
    {
      rows := [];
      var left := rules.Keys;
      while left != {}
        invariant left <= rules.Keys
        invariant forall r :: r in rows <==> r in rules.Keys - left && r.ptype == "g" && fold(r.v1) == fold(name)
        decreases left
      {
        var r :| r in left;
        left := left - {r};
        if r.ptype == "g" && fold(r.v1) == fold(name) {
          rows := rows + [r];
        }
      }
    }

    /** Other active holders of the super administrator role, by joining rules with users in SQL. */
    method CountOtherAdmins(user: nat) returns (n: nat)
      ensures n == 0 <==> !OtherSqlAdmin(Value(), user)
    {
      n := 0;
      var left := users.Keys;
      while left != {}
        invariant left <= users.Keys
        invariant n == 0 <==> NoAdminAmong(Value(), users.Keys - left, user)
        decreases left
      {
        var u :| u in left;
        left := left - {u};
        var rows := FindAssignments(u);
        var admin := HasSqlRole(fold, rows, SUPER_ADMIN);
        SqlRoleInRows(Value(), u, rows, SUPER_ADMIN);
        assert users.Keys - left == users.Keys - (left + {u}) + {u};
        NoAdminAmongOneMore(Value(), users.Keys - (left + {u}), u, user);
        if u != user && users[u].status.Active? && admin {
          n := n + 1;
        }
      }
    }

    /** `GetUserRoles` inside a transaction: the direct roles, sorted. */
    method GetUserRoles(user: nat) returns (names: seq<string>)
      ensures SortedBy(StrLe, names) && forall n :: n in names <==> n in RolesOf(rules, user)
    {
      var rows := FindAssignments(user);
      names := [];
      for i := 0 to |rows|
        invariant forall n :: n in names <==> exists j :: 0 <= j < i && rows[j].v1 == n
      {
        names := names + [rows[i].v1];
      }
      forall n ensures n in names <==> n in RolesOf(rules, user) { AdminInRows(Value(), user, rows, n); }
      StrLePreOrder();
      SortIsSorted(StrLe, names);
      SortIsPermutation(StrLe, names);
      MembersOfMultiset(Sort(StrLe, names), names);
      names := Sort(StrLe, names);
    }

    /** INSERT … ON CONFLICT DO NOTHING of one row. */
    method InsertOne(row: Rule, managed: bool)
      modifies this`rules
      ensures rules == InsertRow(fold, old(rules), row, managed)
    {
      if !(exists r :: r in rules && SameKey(fold, r, row)) {
        rules := rules[row := managed];
      }
    }

    /** Assignments that clash with nothing stored and not with each other are all added. */
    method InsertGroupings(user: nat, names: seq<string>)
      requires FoldsApart(fold, Names(names)) && NoRepeats(names)
      requires forall n :: n in names ==> !Clashes(fold, rules, Grouping(user, n))
      modifies this`rules
      ensures rules == AddRules(old(rules), Groupings(user, Names(names)), false)
    {
      for i := 0 to |names|
        invariant rules == AddRules(old(rules), Groupings(user, Names(names[..i])), false)
      {
        OneMoreGrouping(fold, old(rules), user, names, i);
        InsertOne(Grouping(user, names[i]), false);
      }
      assert names[..|names|] == names;
    }

    method InsertPolicies(role: string, entries: seq<(string, string)>, managed: bool)
      modifies this`rules
      ensures rules == InsertRules(fold, old(rules), PolicyRows(role, entries), managed)
    {
      ghost var rows := PolicyRows(role, entries);
      assert InsertRules(fold, rules, rows[..0], managed) == rules;
      for k := 0 to |entries|
        invariant rules == InsertRules(fold, old(rules), rows[..k], managed)
      {
        InsertStep(fold, old(rules), rows, k, managed);
        InsertOne(Policy(role, entries[k].0, entries[k].1), managed);
      }
      assert rows[..|entries|] == rows;
    }

    /** The checks of a role assignment, in their order, and the roles to assign; the last one is that of
        the insertion, whose failure rolls back. */
    method DecideRoles(user: nat, requested: seq<string>) returns (r: Outcome, names: seq<string>)
      requires IsCollation(fold) && RolesOk(Value())
      ensures r == RolesOutcome(Value(), user, requested)
      ensures r == Done ==> NoRepeats(names) && Names(names) == WantedRoles(Value(), user, requested)
    {
      names := UniqueStrings(requested);
      var guest := Contains(names, GUEST);
      var member := Contains(names, MEMBER);
      if guest || member {
        return ManagedBaseRole, [];
      }
      var current := FindAssignments(user);
      names := AddBase(user, requested, names, current);
      CountMeansKnown(Value(), names);
      if |RowsNamed(fold, roles, names)| != |names| {
        return UnknownRole, [];
      }
      r := GuardLastAdmin(user, current, names);
      if r == Done && !Fits(Names(names)) {
        r := NameTooLong;
      }
      NamesDiffer();
      assert SUPER_ADMIN in names <==> SUPER_ADMIN in WantedRoles(Value(), user, requested);
      assert SUPER_ADMIN in WantedRoles(Value(), user, requested) <==> SUPER_ADMIN in Unique(requested);
    }

    method AddBase(user: nat, requested: seq<string>, normalized: seq<string>,
        current: seq<Rule>) returns (names: seq<string>)
      requires normalized == Unique(requested) && forall r :: r in current <==> r in rules && AssignsTo(r, user)
      ensures NoRepeats(names) && Names(names) == WantedRoles(Value(), user, requested)
    {
      var verified := HasRole(current, MEMBER);
      AdminInRows(Value(), user, current, MEMBER);
      var base := if verified then MEMBER else GUEST;
      names := UniqueStrings(normalized + [base]);
      WithBase(requested, base);
    }

    method GuardLastAdmin(user: nat, current: seq<Rule>, names: seq<string>) returns (r: Outcome)
      requires forall r :: r in current <==> r in rules && AssignsTo(r, user)
      ensures r == if SUPER_ADMIN in RolesOf(rules, user) && SUPER_ADMIN !in names && !OtherSqlAdmin(Value(), user)
                   then LastSuperAdmin else Done
    {
      var admin := HasRole(current, SUPER_ADMIN);
      AdminInRows(Value(), user, current, SUPER_ADMIN);
      var stays := Contains(names, SUPER_ADMIN);
      if admin && !stays {
        var remaining := CountOtherAdmins(user);
        if remaining == 0 {
          return LastSuperAdmin;
        }
      }
      r := Done;
    }

    method SetUserRoles(user: nat, requested: seq<string>, version: string) returns (r: Outcome)
      requires IsCollation(fold) && RolesOk(Value())
      modifies this
      ensures r == RolesOutcome(old(Value()), user, requested)
      ensures Value() == if r != Done then old(Value())
                         else RolesReplaced(old(Value()), user, WantedRoles(old(Value()), user, requested), version)
    {
      var names;
      r, names := DecideRoles(user, requested);
      if r != Done {
        return;
      }
      rules := WithoutAssignments(rules, user);
      NothingAssigned(fold, rules, user);
      InsertGroupings(user, names);
      users := Bumped(users, {user});
      outbox := outbox + [version];
    }

    method DisableUser(user: nat) returns (r: Outcome)
      modifies this
      ensures r == DisableOutcome(old(Value()), user)
      ensures Value() == if r != Done then old(Value()) else StatusSet(old(Value()), user, Disabled)
    {
      var rows := FindAssignments(user);
      var admin := HasSqlRole(fold, rows, SUPER_ADMIN);
      SqlRoleInRows(Value(), user, rows, SUPER_ADMIN);
      if admin {
        var remaining := CountOtherAdmins(user);
        if remaining == 0 {
          return LastSuperAdmin;
        }
      }
      if user !in users {
        return UserNotFound;
      }
      users := users[user := Account(Disabled, users[user].version + 1)];
      r := Done;
    }

    /** `SetStatus` to active. */
    method EnableUser(user: nat) returns (r: Outcome)
      modifies this
      ensures r == if user in old(users) then Done else UserNotFound
      ensures Value() == if r != Done then old(Value()) else StatusSet(old(Value()), user, Active)
      ensures r == Done ==> IsActive(Value(), user) && (Inv(old(Value())) ==> Inv(Value()))
    {
      if user !in users {
        return UserNotFound;
      }
      if Inv(Value()) { StatusInv(Value(), user, Active); }
      users := users[user := Account(Active, users[user].version + 1)];
      r := Done;
    }

    method CreateRole(name: string, builtin: bool) returns (r: Outcome)
      modifies this
      ensures r == CreateRoleOutcome(old(Value()), name)
      ensures Value() == if r != Done then old(Value()) else RoleCreated(old(Value()), name, builtin)
      ensures Inv(old(Value())) ==> Inv(Value())
      ensures Inv(old(Value())) && r == Done ==> RoleNames(Value()) == RoleNames(old(Value())) + {Trim(name)}
    {
      var trimmed := Trim(name);
      if !ValidRoleName(trimmed) {
        return InvalidRoleName;
      }
      if id :| id in roles && roles[id].name == trimmed {
        return RoleExists;
      }
      if Inv(Value()) { RoleCreatedNames(Value(), name, builtin); }
      roles := roles[nextRole := Role(trimmed, builtin)];
      nextRole := nextRole + 1;
      r := Done;
    }

    method DeleteRole(role: nat, version: string) returns (r: Outcome)
      modifies this
      ensures r == DeleteOutcome(old(Value()), role)
      ensures Value() == if r != Done then old(Value()) else RoleDeleted(old(Value()), role, version)
    {
      if role !in roles {
        return RoleNotFound;
      }
      var name := roles[role].name;
      if roles[role].builtin {
        return BuiltinRole;
      }
      var holders := FindHolders(name);
      if |holders| > 0 {
        assert holders[0] in holders;
        return RoleInUse;
      }
      rules := WithoutPolicies(rules, name);
      roles := roles - {role};
      outbox := outbox + [version];
      r := Done;
    }

    method SetPermissions(c: Config, role: nat, grants: seq<Grant>, version: string) returns (r: Outcome)
      modifies this
      ensures r == PermissionsOutcome(c, old(Value()), role, grants)
      ensures Value() == if r != Done then old(Value()) else PermissionsSet(old(Value()), role, grants, version)
    {
      var entries;
      r, entries := CheckGrants(c, grants);
      if r != Done {
        return;
      }
      if role !in roles {
        return RoleNotFound;
      }
      if roles[role].builtin {
        return BuiltinRole;
      }
      ReplacePolicies(roles[role].name, grants, entries);
      outbox := outbox + [version];
    }

    /** The writes of a permission replacement; the holders are read before the rules change. */
    method ReplacePolicies(name: string, grants: seq<Grant>, entries: seq<(string, string)>)
      requires EntriesFor(grants, entries)
      modifies this`rules, this`users
      ensures rules == InsertRules(fold, WithoutPolicies(old(rules), name), GrantRules(name, grants), false)
      ensures users == Bumped(old(users), Holders(fold, old(rules), name))
    {
      var assignments := FindHolders(name);
      var ids := AssignedUserIds(assignments);
      HolderRows(fold, rules, name, assignments, ids);
      rules := WithoutPolicies(rules, name);
      SameGrantRules(name, grants, entries);
      InsertPolicies(name, entries, false);
      users := Bumped(users, set id | id in ids);
    }

    method EnsureRole(name: string)
      modifies this`roles, this`nextRole
      ensures Value() == WithBuiltin(old(Value()), name)
    {
      if id :| id in roles && roles[id].name == name {
        assert name in RoleNames(Value());
        roles := map k | k in roles :: if roles[k].name == name then Role(name, true) else roles[k];
      } else {
        assert name !in RoleNames(Value());
        roles := roles[nextRole := Role(name, true)];
        nextRole := nextRole + 1;
      }
    }

    method EnsureBuiltin(c: Config, b: Base, version: string)
      modifies this
      ensures Value() == BuiltinEnsured(c, old(Value()), b, version)
    {
      EnsureRole(BaseName(b));
      rules := WithoutManaged(rules, BaseName(b));
      InsertPolicies(BaseName(b), if b.Guest? then c.guest else c.member, true);
      outbox := outbox + [version];
    }

    method EnsureBase(c: Config, user: nat, b: Base, version: string)
      modifies this
      ensures Value() == BaseEnsured(c, old(Value()), user, b, version)
    {
      EnsureBuiltin(c, b, version);
      rules := WithoutBase(fold, rules, user);
      NoBaseAssigned(fold, rules, user, b);
      InsertOne(Grouping(user, BaseName(b)), false);
    }

    method GrantSuperAdmin(user: nat, version: string)
      modifies this
      ensures Value() == AdminGranted(old(Value()), user, version)
      ensures Inv(old(Value())) ==>
        Inv(Value()) && SUPER_ADMIN in RoleNames(Value()) && SqlHolds(fold, rules, user, SUPER_ADMIN)
    {
      if Inv(Value()) { GrantGives(Value(), user, version); }
      if !(exists id :: id in roles && roles[id].name == SUPER_ADMIN) {
        EnsureRole(SUPER_ADMIN);
      }
      InsertOne(ADMIN_POLICY, true);
      InsertOne(Grouping(user, SUPER_ADMIN), false);
      outbox := outbox + [version];
    }

    /** `createWithGuestRoleInTx`: the account and its base role appear together. */
    method CreateGuestUser(c: Config, version: string) returns (r: Outcome)
      modifies this
      ensures r == if old(nextUser) <= MAX_UINT64 then Done else IdsExhausted
      ensures Value() == if r != Done then old(Value())
          else BaseEnsured(c, UserCreated(old(Value())), old(nextUser), Guest, version)
    {
      if nextUser > MAX_UINT64 {
        return IdsExhausted;
      }
      var id := nextUser;
      users := users[id := Account(Active, 1)];
      nextUser := nextUser + 1;
      EnsureBase(c, id, Guest, version);
      r := Done;
    }

    /** `Bootstrap`, with `snapshot` the rules the cached enforcer holds when it is asked. */
    method Bootstrap(c: Config, snapshot: map<Rule, bool>, user: nat, version: string)
      modifies this
      ensures Value() == Bootstrapped(c, old(Value()), BaseOf(snapshot, user), user, version)
    {
      EnsureBuiltin(c, Guest, version);
      EnsureBuiltin(c, Member, version);
      EnsureBase(c, user, BaseOf(snapshot, user), version);
      GrantSuperAdmin(user, version);
    }
  }

  /** The state in which the last transaction of `Bootstrap` starts. */
  function BeforeGrant(c: Config, db: Db, b: Base, user: nat, version: string): Db {
    BaseEnsured(c, BuiltinEnsured(c, BuiltinEnsured(c, db, Guest, version), Member, version), user, b, version)
  }

  function Bootstrapped(c: Config, db: Db, b: Base, user: nat, version: string): Db {
    AdminGranted(BeforeGrant(c, db, b, user, version), user, version)
  }

  lemma AdminInRows(db: Db, user: nat, rows: seq<Rule>, name: string)
    requires forall r :: r in rows <==> r in db.rules && AssignsTo(r, user)
    ensures (exists i :: 0 <= i < |rows| && rows[i].v1 == name) <==> name in RolesOf(db.rules, user)
  {
    if i :| 0 <= i < |rows| && rows[i].v1 == name { assert rows[i] in rows; }
    if name in RolesOf(db.rules, user) {
      var r :| r in db.rules && AssignsTo(r, user) && r.v1 == name;
      assert r in rows;
    }
  }

  lemma SameGrantRules(name: string, grants: seq<Grant>, entries: seq<(string, string)>)
    requires EntriesFor(grants, entries)
    ensures GrantRules(name, grants) == PolicyRows(name, entries)
  {
    forall i | 0 <= i < |grants| ensures GrantRules(name, grants)[i] == PolicyRows(name, entries)[i] {
      assert EntryFor(grants[i], entries[i]);
    }
  }

  lemma RoleCreatedNames(db: Db, name: string, builtin: bool)
    requires Inv(db) && ValidRoleName(Trim(name)) && Trim(name) !in RoleNames(db)
    ensures Inv(RoleCreated(db, name, builtin))
        && RoleNames(RoleCreated(db, name, builtin)) == RoleNames(db) + {Trim(name)}
  {
    RoleCreatedInv(db, name, builtin);
    AddedNames(db, db.nextRole, Role(Trim(name), builtin));
    assert RoleNames(RoleCreated(db, name, builtin))
        == RoleNames(db.(roles := db.roles[db.nextRole := Role(Trim(name), builtin)]));
  }

  /** After the grant the user holds the role, in whatever spelling it was stored before. */
  lemma GrantGives(db: Db, user: nat, version: string)
    requires Inv(db)
    ensures var after := AdminGranted(db, user, version);
      Inv(after) && SUPER_ADMIN in RoleNames(after) && SqlHolds(db.fold, after.rules, user, SUPER_ADMIN)
  {
    var after := AdminGranted(db, user, version);
    SuperAdminIsValid();
    GrantInv(db, user, version);
    BuiltinKeepsRoles(db, SUPER_ADMIN);
    assert RoleNames(after) == RoleNames(db) + {SUPER_ADMIN};
    RolesAfterGrant(db, user, version, user);
    if Spelled(db.fold, db.rules, user, SUPER_ADMIN) {
      var r :| r in db.rules && SameKey(db.fold, r, Grouping(user, SUPER_ADMIN));
      assert r.v1 in RolesOf(db.rules, user);
    }
  }

  lemma SqlRoleInRows(db: Db, user: nat, rows: seq<Rule>, name: string)
    requires forall r :: r in rows <==> r in db.rules && AssignsTo(r, user)
    ensures (exists i :: 0 <= i < |rows| && db.fold(rows[i].v1) == db.fold(name))
       <==> SqlHolds(db.fold, db.rules, user, name)
  {
    if i :| 0 <= i < |rows| && db.fold(rows[i].v1) == db.fold(name) { assert rows[i] in rows; }
    if SqlHolds(db.fold, db.rules, user, name) {
      var n :| n in RolesOf(db.rules, user) && db.fold(n) == db.fold(name);
      var r :| r in db.rules && AssignsTo(r, user) && r.v1 == n;
      assert r in rows;
    }
  }

  lemma NothingAssigned(fold: Collation, rules: map<Rule, bool>, user: nat)
    requires forall r :: r in rules ==> !AssignsTo(r, user)
    ensures forall n :: !Clashes(fold, rules, Grouping(user, n))
  {
  }

  lemma NoBaseAssigned(fold: Collation, rules: map<Rule, bool>, user: nat, b: Base)
    requires forall r :: r in rules && AssignsTo(r, user) ==> !SqlBaseName(fold, r.v1)
    ensures !Clashes(fold, rules, Grouping(user, BaseName(b)))
    ensures InsertRow(fold, rules, Grouping(user, BaseName(b)), false)
        == AddRules(rules, {Grouping(user, BaseName(b))}, false)
  {
  }

  lemma OneMoreGrouping(fold: Collation, rules: map<Rule, bool>, user: nat, names: seq<string>, i: nat)
    requires i < |names| && FoldsApart(fold, Names(names)) && NoRepeats(names)
    requires forall n :: n in names ==> !Clashes(fold, rules, Grouping(user, n))
    ensures var before := AddRules(rules, Groupings(user, Names(names[..i])), false);
      InsertRow(fold, before, Grouping(user, names[i]), false)
          == AddRules(rules, Groupings(user, Names(names[..i + 1])), false)
  {
    var before, row := AddRules(rules, Groupings(user, Names(names[..i])), false), Grouping(user, names[i]);
    assert names[i] in Names(names);
    forall r | r in before ensures !SameKey(fold, r, row) {
      if r in Groupings(user, Names(names[..i])) {
        var n :| n in Names(names[..i]) && r == Grouping(user, n);
        assert n in Names(names) && n != names[i];
      }
    }
    assert Names(names[..i + 1]) == Names(names[..i]) + {names[i]};
    assert Groupings(user, Names(names[..i + 1])) == Groupings(user, Names(names[..i])) + {row};
  }

  lemma HolderRows(fold: Collation, rules: map<Rule, bool>, name: string, rows: seq<Rule>, ids: seq<nat>)
    requires forall r :: r in rows <==> r in rules && r.ptype == "g" && fold(r.v1) == fold(name)
    requires forall id :: id in ids <==> exists i :: 0 <= i < |rows| && AssignedId(rows[i]) == Some(id)
    ensures (set id | id in ids) == Holders(fold, rules, name)
  {
    forall id | id in ids ensures id in Holders(fold, rules, name) {
      var i :| 0 <= i < |rows| && AssignedId(rows[i]) == Some(id);
      assert rows[i] in rows;
    }
    forall id | id in Holders(fold, rules, name) ensures id in ids {
      var r :| r in rules && r.ptype == "g" && fold(r.v1) == fold(name) && AssignedId(r).Some?
          && AssignedId(r).value == id;
      assert r in rows;
      var i :| 0 <= i < |rows| && rows[i] == r;
    }
  }

  /** Normalising the requested roles again with the base role appended adds just that role. */
  lemma WithBase(requested: seq<string>, base: string)
    requires base == GUEST || base == MEMBER
    ensures var again := Unique(Unique(requested) + [base]);
      NoRepeats(again) && forall n :: n in again <==> n in Unique(requested) || n == base
  {
    var u := Unique(requested);
    UniqueCorrect(requested);
    UniqueCorrect(u + [base]);
    BaseIsTrimmed(base);
    forall n ensures n != "" && Occurs(u + [base], n) <==> n in u || n == base {
      OccursSnoc(u, base, n);
      if Occurs(u, n) {
        var i :| 0 <= i < |u| && Trim(u[i]) == n;
        assert u[i] in u;
      }
      if n in u {
        var i :| 0 <= i < |u| && u[i] == n;
        assert Trim(u[i]) == n;
      }
    }
  }

  lemma BaseIsTrimmed(base: string)
    requires base == GUEST || base == MEMBER
    ensures Trim(base) == base && base != ""
  {
    assert Trimmed(base);
    TrimOfTrimmed(base);
  }
}
