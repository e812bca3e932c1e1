/** Runs in which another spelling of a role name defeats the super administrator guard: requested names
    are trimmed but not matched against the role pattern, and the tables compare by their collation. */
module SpellingRuns {
  import opened Text
  import opened Uniques
  import opened PolicyRules
  import opened Rbac
  import opened RbacSafety

  // ---------------------------------------------------------------- other spellings

  /** A trimmed text that the collation takes for the role, and the service does not; and that fits its
      column. */
  ghost predicate Variant(fold: Collation, x: string) {
    Respelled(fold, x) && x != "" && Trim(x) == x && |x| <= COLUMN_CHARS
  }

  const SHOUTED := "SUPER_ADMIN"

  /** Capitals are one under any collation that ignores case ... */
  lemma ShoutedIsVariant()
    ensures IsCollation(ToLower) && Variant(ToLower, SHOUTED)
  {
    ToLowerIsCollation();
    assert ToLower(SHOUTED) == SUPER_ADMIN;
    assert SHOUTED[0] == 'S' && SUPER_ADMIN[0] == 's';
    TrimOfTrimmed(SHOUTED);
  }

  function PlainChar(c: char): char { if c == '\U{FA}' || c == '\U{DA}' then 'u' else LowerChar(c) }

  /** ... and a lower-case name with an accent under one that ignores accents; here those on the
      letter u. */
  function Unaccented(s: string): (r: string)
    ensures |r| == |s| && forall i :: 0 <= i < |s| ==> r[i] == PlainChar(s[i])
  {
    seq(|s|, i requires 0 <= i < |s| => PlainChar(s[i]))
  }

  const ACCENTED := "s\U{FA}per_admin"

  lemma AccentedIsVariant()
    ensures IsCollation(Unaccented) && Variant(Unaccented, ACCENTED)
  {
    forall s | OwnText(s) ensures Unaccented(s) == s {}
    forall a, b | MethodText(a) && MethodText(b) && Unaccented(a) == Unaccented(b) ensures a == b {
      assert |a| == |Unaccented(a)| == |Unaccented(b)| == |b|;
      forall i | 0 <= i < |a| ensures a[i] == b[i] {
        assert PlainChar(a[i]) == Unaccented(a)[i] == Unaccented(b)[i] == PlainChar(b[i]);
      }
    }
    assert Unaccented(ACCENTED) == SUPER_ADMIN;
    assert ACCENTED[1] == '\U{FA}' && SUPER_ADMIN[1] == 'u';
    TrimOfTrimmed(ACCENTED);
  }

  // ---------------------------------------------------------------- two steps

  lemma VariantRequest(fold: Collation, x: string)
    requires Variant(fold, x)
    ensures forall n :: n in Unique([x]) <==> n == x
  {
    UniqueCorrect([x]);
    assert [x][0] == x;
  }

  lemma NothingRequested()
    ensures Unique([]) == []
  {
  }

  /** The setting: `a` is the only active super administrator, `b` another active account, and the
      roles concerned exist. */
  ghost predicate Setting(db: Db, a: nat, b: nat) {
    && Inv(db) && Exact(db) && a != b && ActiveAdmin(db, a) && !OtherActiveAdmin(db, a) && IsActive(db, b)
    && SUPER_ADMIN in RoleNames(db)
    && BaseName(BaseOf(db.rules, a)) in RoleNames(db) && BaseName(BaseOf(db.rules, b)) in RoleNames(db)
  }

  /** Asking for the role in such a spelling is accepted, although no role has that name. */
  lemma VariantIsAccepted(c: Config, db: Db, a: nat, b: nat, x: string, version: string)
    requires Setting(db, a, b) && Variant(db.fold, x)
    ensures OutcomeOf(c, db, SetUserRoles(b, [x])) == Done
    ensures !Exact(Apply(c, db, SetUserRoles(b, [x]), version))
  {
    VariantRequest(db.fold, x);
    VariantIsKnown(db, b, x);
    assert !ActiveAdmin(db, b);
    NamesDiffer();
    OwnNamesFold(db.fold);
    SuperAdminIsNoVariant(db, x);
    assert x in Unique([x]);
    AssignmentKeepsExactIff(c, db, b, [x], version);
  }

  lemma SuperAdminIsNoVariant(db: Db, x: string)
    requires Inv(db) && Variant(db.fold, x)
    ensures x !in RoleNames(db)
  {
    if x in RoleNames(db) { ValidNameFolds(db.fold, x); }
  }

  lemma VariantIsKnown(db: Db, b: nat, x: string)
    requires IsCollation(db.fold) && Variant(db.fold, x)
    requires SUPER_ADMIN in RoleNames(db) && BaseName(BaseOf(db.rules, b)) in RoleNames(db)
    ensures Known(db, WantedRoles(db, b, [x]))
  {
    var base := BaseName(BaseOf(db.rules, b));
    VariantRequest(db.fold, x);
    assert WantedRoles(db, b, [x]) == {x, base};
    NamesDiffer();
    OwnNamesFold(db.fold);
    PairIsKnown(db, x, base);
  }

  lemma PairIsKnown(db: Db, x: string, y: string)
    requires db.fold(x) in RoleNames(db) && db.fold(y) in RoleNames(db) && db.fold(x) != db.fold(y)
    ensures Known(db, {x, y})
  {
  }

  /** What the first step leaves behind. */
  lemma AfterVariant(c: Config, db: Db, a: nat, b: nat, x: string, version: string)
    requires Setting(db, a, b) && Variant(db.fold, x)
    ensures var db1 := Apply(c, db, SetUserRoles(b, [x]), version);
      && ActiveAdmin(db1, a) && !OtherActiveAdmin(db1, a) && SqlActiveAdmin(db1, b)
      && RolesOf(db1.rules, a) == RolesOf(db.rules, a) && RoleNames(db1) == RoleNames(db)
  {
    var wanted := WantedRoles(db, b, [x]);
    VariantIsAccepted(c, db, a, b, x, version);
    VariantRequest(db.fold, x);
    NamesDiffer();
    OwnNamesFold(db.fold);
    var db1 := RolesReplaced(db, b, wanted, version);
    assert RoleNames(db1) == RoleNames(db);
    RolesAfterReplacement(db, b, wanted, version, a);
    RolesAfterReplacement(db, b, wanted, version, b);
    assert x in RolesOf(db1.rules, b);
    forall u: nat ensures ActiveAdmin(db1, u) <==> ActiveAdmin(db, u) {
      AdminAfterAssignment(db, b, wanted, version, u);
      assert u == b ==> !ActiveAdmin(db, u);
    }
  }

  /** Then the last super administrator gives the role up, and the guard lets it happen. */
  lemma LastAdminLeaves(c: Config, db: Db, a: nat, b: nat, version: string)
    requires IsCollation(db.fold) && a != b && ActiveAdmin(db, a) && !OtherActiveAdmin(db, a) && SqlActiveAdmin(db, b)
    requires BaseName(BaseOf(db.rules, a)) in RoleNames(db)
    ensures OutcomeOf(c, db, SetUserRoles(a, [])) == Done && !HasActiveAdmin(Apply(c, db, SetUserRoles(a, []), version))
  {
    NothingRequested();
    BaseIsKnown(db, a);
    AssignmentLosesAdminIff(c, db, a, [], version);
  }

  lemma BaseIsKnown(db: Db, a: nat)
    requires IsCollation(db.fold) && BaseName(BaseOf(db.rules, a)) in RoleNames(db)
    ensures Known(db, WantedRoles(db, a, []))
  {
    var base := BaseName(BaseOf(db.rules, a));
    NothingRequested();
    OwnNamesFold(db.fold);
    assert WantedRoles(db, a, []) == {base};
    OneIsKnown(db, base);
  }

  lemma OneIsKnown(db: Db, x: string)
    requires db.fold(x) in RoleNames(db)
    ensures Known(db, {x})
  {
    assert FoldSet(db.fold, {x}) == {db.fold(x)};
  }

  /** The two accepted steps together leave nobody who holds the super administrator role. */
  lemma TwoStepsLoseTheAdmin(c: Config, db: Db, a: nat, b: nat, x: string, v1: string, v2: string)
    requires Setting(db, a, b) && Variant(db.fold, x)
    ensures HasActiveAdmin(db)
    ensures !HasActiveAdmin(Run(c, db, [Call(SetUserRoles(b, [x]), v1), Call(SetUserRoles(a, []), v2)]))
  {
    var calls := [Call(SetUserRoles(b, [x]), v1), Call(SetUserRoles(a, []), v2)];
    var db1 := Apply(c, db, SetUserRoles(b, [x]), v1);
    AfterVariant(c, db, a, b, x, v1);
    LastAdminLeaves(c, db1, a, b, v2);
    RunOfTwo(c, db, calls[0], calls[1]);
  }

  lemma RunOfTwo(c: Config, db: Db, x: Call, y: Call)
    ensures Run(c, db, [x, y]) == Apply(c, Apply(c, db, x.op, x.version), y.op, y.version)
  {
    var db1 := Apply(c, db, x.op, x.version);
    assert [x, y][1..] == [y] && [y][1..] == [];
    assert Run(c, db1, [y]) == Run(c, Apply(c, db1, y.op, y.version), []);
  }

  // ---------------------------------------------------------------- the setting is reached from an empty database

  /** Two accounts are provisioned and the first is made super administrator. */
  ghost function ProvisionedFrom(c: Config, db: Db, v: string): Db {
    Apply(c, Apply(c, Apply(c, db, CreateGuestUser, v), CreateGuestUser, v), GrantSuperAdmin(1), v)
  }

  ghost function Provisioned(fold: Collation, c: Config, v: string): Db { ProvisionedFrom(c, Empty(fold), v) }

  /** The first `n` accounts exist, are active and are guests; there is nothing else. */
  ghost predicate OnlyGuests(db: Db, n: nat) {
    && Inv(db) && Exact(db) && db.nextUser == n + 1 && (n > 0 ==> GUEST in RoleNames(db))
    && (forall u: nat :: 1 <= u <= n ==> IsActive(db, u))
    && forall u: nat :: RolesOf(db.rules, u) == GuestRoles(u, n)
  }

  function GuestRoles(u: nat, n: nat): set<string> { if 1 <= u <= n then {GUEST} else {} }

  lemma GuestRolesAfter(c: Config, db: Db, n: nat, v: string, u: nat)
    requires db.nextUser == n + 1 && RolesOf(db.rules, u) == GuestRoles(u, n)
    ensures RolesOf(BaseEnsured(c, UserCreated(db), db.nextUser, Guest, v).rules, u) == GuestRoles(u, n + 1)
  {
    RolesAfterBase(c, UserCreated(db), db.nextUser, Guest, v, u);
  }

  lemma GuestKeepsInv(c: Config, db: Db, v: string)
    requires Inv(db) && Exact(db) && db.nextUser <= MAX_UINT64
    ensures var after := BaseEnsured(c, UserCreated(db), db.nextUser, Guest, v);
      Inv(after) && Exact(after) && GUEST in RoleNames(after)
  {
    var mid := UserCreated(db);
    UserCreatedInv(db);
    SameNamesKeepExact(db, mid);
    BaseInv(c, mid, db.nextUser, Guest, v);
    BaseExact(c, mid, db.nextUser, Guest, v);
    BuiltinInv(c, mid, Guest, v);
    assert RoleNames(BaseEnsured(c, mid, db.nextUser, Guest, v)) == RoleNames(BuiltinEnsured(c, mid, Guest, v));
  }

  lemma GuestUsers(c: Config, db: Db, v: string)
    ensures BaseEnsured(c, UserCreated(db), db.nextUser, Guest, v).users == UserCreated(db).users
    ensures BaseEnsured(c, UserCreated(db), db.nextUser, Guest, v).nextUser == db.nextUser + 1
  {
  }

  lemma OneMoreGuest(c: Config, db: Db, n: nat, v: string)
    requires OnlyGuests(db, n) && n < 2
    ensures OnlyGuests(Apply(c, db, CreateGuestUser, v), n + 1)
  {
    var after := BaseEnsured(c, UserCreated(db), db.nextUser, Guest, v);
    GuestStep(c, db, v);
    GuestKeepsInv(c, db, v);
    GuestUsers(c, db, v);
    forall u: nat ensures RolesOf(after.rules, u) == GuestRoles(u, n + 1) { GuestRolesAfter(c, db, n, v, u); }
    forall u: nat | 1 <= u <= n + 1 ensures IsActive(after, u) { assert u <= n ==> IsActive(db, u); }
  }

  lemma NotSpelled(db: Db, user: nat)
    requires IsCollation(db.fold) && RolesOf(db.rules, user) == {GUEST}
    ensures !Spelled(db.fold, db.rules, user, SUPER_ADMIN)
  {
    NamesDiffer();
    OwnNamesFold(db.fold);
    forall r | r in db.rules ensures !SameKey(db.fold, r, Grouping(user, SUPER_ADMIN)) {
      assert AssignsTo(r, user) ==> r.v1 in RolesOf(db.rules, user);
    }
  }

  lemma FirstAdminRoles(db: Db, v: string, u: nat)
    requires OnlyGuests(db, 2)
    ensures RolesOf(AdminGranted(db, 1, v).rules, u) == GuestRoles(u, 2) + if u == 1 then {SUPER_ADMIN} else {}
  {
    assert RolesOf(db.rules, 1) == GuestRoles(1, 2);
    NotSpelled(db, 1);
    RolesAfterGrant(db, 1, v, u);
  }

  lemma GuestRolesHold(u: nat, n: nat)
    ensures SUPER_ADMIN !in GuestRoles(u, n) && MEMBER !in GuestRoles(u, n) && MEMBER != SUPER_ADMIN
  {
    NamesDiffer();
  }

  lemma GrantKeepsUsers(db: Db, v: string)
    ensures AdminGranted(db, 1, v).users == db.users
  {
  }

  /** Only the first account is a super administrator now, and no account is a member. */
  lemma FirstAdminOnly(db: Db, v: string, u: nat)
    requires OnlyGuests(db, 2)
    ensures ActiveAdmin(AdminGranted(db, 1, v), u) <==> u == 1
    ensures BaseOf(AdminGranted(db, 1, v).rules, u) == Guest
  {
    GuestRolesHold(u, 2);
    FirstAdminRoles(db, v, u);
    GrantKeepsUsers(db, v);
    assert IsActive(db, 1);
  }

  lemma FirstAdminAlone(db: Db, v: string)
    requires OnlyGuests(db, 2)
    ensures ActiveAdmin(AdminGranted(db, 1, v), 1) && !OtherActiveAdmin(AdminGranted(db, 1, v), 1)
  {
    FirstAdminOnly(db, v, 1);
    forall u: nat | u != 1 ensures !ActiveAdmin(AdminGranted(db, 1, v), u) { FirstAdminOnly(db, v, u); }
  }

  lemma FirstAdmin(db: Db, v: string)
    requires OnlyGuests(db, 2)
    ensures Setting(AdminGranted(db, 1, v), 1, 2)
  {
    SuperAdminIsValid();
    GrantInv(db, 1, v);
    GrantExact(db, 1, v);
    BuiltinKeepsRoles(db, SUPER_ADMIN);
    assert RoleNames(AdminGranted(db, 1, v)) == RoleNames(db) + {SUPER_ADMIN};
    FirstAdminAlone(db, v);
    FirstAdminOnly(db, v, 1);
    FirstAdminOnly(db, v, 2);
    GrantKeepsUsers(db, v);
    assert IsActive(db, 2);
  }

  lemma GrantStep(c: Config, db: Db, user: nat, v: string)
    ensures Apply(c, db, GrantSuperAdmin(user), v) == AdminGranted(db, user, v)
  {
  }

  lemma NothingYet(fold: Collation)
    requires IsCollation(fold)
    ensures OnlyGuests(Empty(fold), 0)
  {
    EmptyInv(fold);
  }

  lemma SettingIsReachedFrom(c: Config, db: Db, v: string)
    requires OnlyGuests(db, 0)
    ensures Setting(ProvisionedFrom(c, db, v), 1, 2) && ProvisionedFrom(c, db, v).fold == db.fold
  {
    var db1 := Apply(c, db, CreateGuestUser, v);
    OneMoreGuest(c, db, 0, v);
    StepKeepsCollation(c, db, CreateGuestUser, v);
    var db2 := Apply(c, db1, CreateGuestUser, v);
    OneMoreGuest(c, db1, 1, v);
    StepKeepsCollation(c, db1, CreateGuestUser, v);
    FirstAdmin(db2, v);
    GrantStep(c, db2, 1, v);
    StepKeepsCollation(c, db2, GrantSuperAdmin(1), v);
  }

  /** The setting is reached under every collation. */
  lemma SettingIsReached(fold: Collation, c: Config, v: string)
    requires IsCollation(fold)
    ensures Setting(Provisioned(fold, c, v), 1, 2) && Provisioned(fold, c, v).fold == fold
  {
    NothingYet(fold);
    SettingIsReachedFrom(c, Empty(fold), v);
  }

  /** So, under every collation with a variant of the role's name, there is a run from the empty
      database that has a super administrator and then none. */
  lemma VariantRunLosesTheAdmin(fold: Collation, c: Config, x: string, v: string)
    requires IsCollation(fold) && Variant(fold, x)
    ensures var db := Provisioned(fold, c, v);
      HasActiveAdmin(db) && !HasActiveAdmin(Run(c, db, [Call(SetUserRoles(2, [x]), v), Call(SetUserRoles(1, []), v)]))
  {
    SettingIsReached(fold, c, v);
    TwoStepsLoseTheAdmin(c, Provisioned(fold, c, v), 1, 2, x, v, v);
  }

  // ---------------------------------------------------------------- exactly which requests are safe

  /** All role requests ask for names of the given set only. */
  ghost predicate AsksWithin(names: iset<string>, calls: seq<Call>) {
    forall i, n :: 0 <= i < |calls| && calls[i].op.SetUserRoles? && n in Unique(calls[i].op.roles) ==> n in names
  }

  /** In every run from the empty database with such requests, once there is an active super
      administrator there always is one. */
  ghost predicate AdminStays(fold: Collation, c: Config, names: iset<string>) {
    forall first, calls ::
      (AsksWithin(names, first) && AsksWithin(names, calls) && HasActiveAdmin(Run(c, Empty(fold), first)))
      ==> HasActiveAdmin(Run(c, Run(c, Empty(fold), first), calls))
  }

  lemma WithinIsPlain(fold: Collation, names: iset<string>, calls: seq<Call>)
    requires AsksWithin(names, calls) && forall x :: x in names ==> !Variant(fold, x)
    ensures PlainRequests(fold, calls)
  {
    forall i | 0 <= i < |calls| ensures PlainRequest(fold, calls[i].op) {
      if calls[i].op.SetUserRoles? {
        UniqueCorrect(calls[i].op.roles);
        forall n | n in Unique(calls[i].op.roles) && |n| <= COLUMN_CHARS ensures !Respelled(fold, n) {
          assert n in names;
        }
      }
    }
  }

  lemma SafeNamesKeepAnAdmin(fold: Collation, c: Config, names: iset<string>, first: seq<Call>, calls: seq<Call>)
    requires IsCollation(fold) && forall x :: x in names ==> !Variant(fold, x)
    requires AsksWithin(names, first) && AsksWithin(names, calls) && HasActiveAdmin(Run(c, Empty(fold), first))
    ensures HasActiveAdmin(Run(c, Run(c, Empty(fold), first), calls))
  {
    WithinIsPlain(fold, names, first);
    WithinIsPlain(fold, names, calls);
    EmptyInv(fold);
    ExactIsAdminExact(Empty(fold));
    RunKeepsInv(c, Empty(fold), first);
    RunKeepsAdminExact(c, Empty(fold), first);
    RunKeepsAnAdmin(c, Run(c, Empty(fold), first), calls);
  }

  lemma ProvisioningRun(fold: Collation, c: Config, v: string)
    ensures Provisioned(fold, c, v)
         == Run(c, Empty(fold), [Call(CreateGuestUser, v), Call(CreateGuestUser, v), Call(GrantSuperAdmin(1), v)])
  {
    var g, a := Call(CreateGuestUser, v), Call(GrantSuperAdmin(1), v);
    var db1 := Apply(c, Empty(fold), CreateGuestUser, v);
    assert [g, g, a][1..] == [g, a];
    RunOfTwo(c, db1, g, a);
  }

  /** The two assignments ask for that name only. */
  lemma VariantAsks(fold: Collation, names: iset<string>, x: string, v: string)
    requires x in names && Variant(fold, x)
    ensures AsksWithin(names, [Call(SetUserRoles(2, [x]), v), Call(SetUserRoles(1, []), v)])
  {
    VariantRequest(fold, x);
    NothingRequested();
  }

  lemma VariantLosesAnAdmin(fold: Collation, c: Config, names: iset<string>, x: string)
    requires IsCollation(fold) && x in names && Variant(fold, x)
    ensures !AdminStays(fold, c, names)
  {
    var first := [Call(CreateGuestUser, ""), Call(CreateGuestUser, ""), Call(GrantSuperAdmin(1), "")];
    var calls := [Call(SetUserRoles(2, [x]), ""), Call(SetUserRoles(1, []), "")];
    ProvisioningRun(fold, c, "");
    assert AsksWithin(names, first);
    VariantAsks(fold, names, x, "");
    VariantRunLosesTheAdmin(fold, c, x, "");
  }

  /** The names that role requests may ask for without ever losing the last administrator: exactly the
      sets without another spelling of the role. */
  lemma AdminStaysIff(fold: Collation, c: Config, names: iset<string>)
    requires IsCollation(fold)
    ensures AdminStays(fold, c, names) <==> forall x :: x in names ==> !Variant(fold, x)
  {
    if x :| x in names && Variant(fold, x) {
      VariantLosesAnAdmin(fold, c, names, x);
    } else {
      forall first, calls | AsksWithin(names, first) && AsksWithin(names, calls)
          && HasActiveAdmin(Run(c, Empty(fold), first))
        ensures HasActiveAdmin(Run(c, Run(c, Empty(fold), first), calls))
      {
        SafeNamesKeepAnAdmin(fold, c, names, first, calls);
      }
    }
  }
}
