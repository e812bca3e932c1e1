/** What `SetPermissions` accepts, and what `GetPermissions` reads back afterwards. */
module PermissionListing {
  import opened Text
  import opened PolicyRules
  import opened Rbac

  lemma {:induction false} AcceptedMethods(c: Config, path: string, ms: seq<string>)
    ensures MethodsOutcome(c, path, ms) == Done <==>
      forall m :: m in ms ==> HttpMethod(m) && path in c.catalog && m in c.catalog[path]
  {
    if ms != [] { AcceptedMethods(c, path, ms[1..]); }
  }

  /** A request is accepted exactly when each entry has an API path, at least one method, and only
      methods the catalogue lists for that path. */
  lemma {:induction false} AcceptedGrants(c: Config, grants: seq<Grant>)
    ensures GrantsOutcome(c, grants) == Done <==>
      forall i :: 0 <= i < |grants| ==> GrantOutcome(c, grants[i]) == Done
  {
    if grants != [] {
      AcceptedGrants(c, grants[1..]);
      if forall i :: 0 <= i < |grants| ==> GrantOutcome(c, grants[i]) == Done {
        assert GrantOutcome(c, grants[0]) == Done;
        forall i | 0 <= i < |grants[1..]| ensures GrantOutcome(c, grants[1..][i]) == Done {
          assert grants[1..][i] == grants[i + 1];
        }
      } else if GrantOutcome(c, grants[0]) == Done
          && (forall i :: 0 <= i < |grants[1..]| ==> GrantOutcome(c, grants[1..][i]) == Done) {
        forall i | 0 <= i < |grants| ensures GrantOutcome(c, grants[i]) == Done {
          if i > 0 { assert grants[1..][i - 1] == grants[i]; }
        }
      }
    }
  }

  /** What `GetPermissions` lists for a role, from the committed rows. */
  function Listed(rules: map<Rule, bool>, role: string): set<(string, seq<string>)> {
    set r | r in PoliciesOf(rules, role) :: (r.v1, ReadExpression(r.v2))
  }

  function Requested(grants: seq<Grant>): set<(string, seq<string>)> {
    set i | 0 <= i < |grants| :: (grants[i].path, UniqueUpper(grants[i].methods))
  }

  lemma GrantReadsBack(c: Config, role: string, g: Grant)
    requires GrantOutcome(c, g) == Done
    ensures ReadsBack(role, g)
  {
    var ms := UniqueUpper(g.methods);
    AcceptedMethods(c, g.path, ms);
    forall i | 0 <= i < |ms| ensures MethodWord(ms[i]) { HttpMethodIsWord(ms[i]); }
    ExpressionRoundTrip(ms);
  }

  lemma PoliciesReplaced(db: Db, role: nat, grants: seq<Grant>, version: string)
    requires role in db.roles
    ensures var rows := GrantRules(db.roles[role].name, grants);
      PoliciesOf(PermissionsSet(db, role, grants, version).rules, db.roles[role].name)
      == set i | 0 <= i < |rows| && FirstOfKey(db.fold, rows, i) :: rows[i]
  {
    var name := db.roles[role].name;
    var rows, base := GrantRules(name, grants), WithoutPolicies(db.rules, name);
    assert forall i :: 0 <= i < |rows| ==> !Clashes(db.fold, base, rows[i]);
    assert NewRows(db.fold, base, rows) == set i | 0 <= i < |rows| && FirstOfKey(db.fold, rows, i) :: rows[i];
  }

  ghost predicate ReadsBack(role: string, g: Grant) {
    GrantRule(role, g).v1 == g.path && ReadExpression(GrantRule(role, g).v2) == UniqueUpper(g.methods)
  }

  ghost predicate AllReadBack(role: string, grants: seq<Grant>) {
    forall i :: 0 <= i < |grants| ==> ReadsBack(role, grants[i])
  }

  lemma AcceptedReadBack(c: Config, role: string, grants: seq<Grant>)
    requires GrantsOutcome(c, grants) == Done
    ensures AllReadBack(role, grants)
  {
    AcceptedGrants(c, grants);
    forall i | 0 <= i < |grants| ensures ReadsBack(role, grants[i]) { GrantReadsBack(c, role, grants[i]); }
  }

  /** Two entries with the same methods whose paths differ, but not for the collation. */
  ghost predicate PathVariants(fold: Collation, g: Grant, h: Grant) {
    g.path != h.path && fold(g.path) == fold(h.path) && UniqueUpper(g.methods) == UniqueUpper(h.methods)
  }

  ghost predicate NoPathVariants(fold: Collation, grants: seq<Grant>) {
    forall i, j :: 0 <= i < |grants| && 0 <= j < |grants| ==> !PathVariants(fold, grants[i], grants[j])
  }

  /** Reading a role's permissions right after replacing them returns exactly the requested paths,
      each with its methods upper-cased, sorted and free of repeats, if and only if no two entries
      have paths that differ but not for the collation: the unique index keeps the first only. */
  lemma PermissionsRoundTripIff(c: Config, db: Db, role: nat, grants: seq<Grant>, version: string)
    requires IsCollation(db.fold) && PermissionsOutcome(c, db, role, grants) == Done
    ensures Listed(PermissionsSet(db, role, grants, version).rules, db.roles[role].name) == Requested(grants)
            <==> NoPathVariants(db.fold, grants)
  {
    var name := db.roles[role].name;
    var rules := PermissionsSet(db, role, grants, version).rules;
    PoliciesReplaced(db, role, grants, version);
    AcceptedReadBack(c, name, grants);
    ListedAreRequested(db.fold, name, grants, rules);
    if NoPathVariants(db.fold, grants) {
      RequestedAreListed(db.fold, c, name, grants, rules);
    } else {
      var i, j :| 0 <= i < |grants| && 0 <= j < |grants| && PathVariants(db.fold, grants[i], grants[j]);
      VariantIsLost(db.fold, c, name, grants, rules, i, j);
    }
  }

  ghost predicate StoresFirsts(fold: Collation, rules: map<Rule, bool>, role: string, grants: seq<Grant>) {
    var rows := GrantRules(role, grants);
    PoliciesOf(rules, role) == set i | 0 <= i < |rows| && FirstOfKey(fold, rows, i) :: rows[i]
  }

  /** Accepted entries have the same key exactly when the collation equates their paths and their methods
      agree. */
  lemma GrantKeys(fold: Collation, c: Config, role: string, g: Grant, h: Grant)
    requires IsCollation(fold)
    requires GrantOutcome(c, g) == Done && GrantOutcome(c, h) == Done
    ensures SameKey(fold, GrantRule(role, g), GrantRule(role, h)) <==>
      fold(g.path) == fold(h.path) && UniqueUpper(g.methods) == UniqueUpper(h.methods)
  {
    GrantReadsBack(c, role, g);
    GrantReadsBack(c, role, h);
    ExpressionIsMethodText(c, role, g);
    ExpressionIsMethodText(c, role, h);
  }

  lemma {:induction false} JoinIsMethodText(ms: seq<string>)
    requires forall i :: 0 <= i < |ms| ==> MethodText(ms[i])
    ensures MethodText(Join(ms, '|'))
  {
    if |ms| > 1 { JoinIsMethodText(ms[1..]); }
  }

  lemma ExpressionIsMethodText(c: Config, role: string, g: Grant)
    requires GrantOutcome(c, g) == Done
    ensures MethodText(GrantRule(role, g).v2)
  {
    var ms := UniqueUpper(g.methods);
    AcceptedMethods(c, g.path, ms);
    forall i | 0 <= i < |ms| ensures MethodText(ms[i]) { VerbIsMethodText(ms[i]); }
    JoinIsMethodText(ms);
  }

  lemma VerbIsMethodText(m: string)
    requires HttpMethod(m)
    ensures MethodText(m)
  {
  }

  lemma SameRequest(fold: Collation, c: Config, role: string, g: Grant, h: Grant)
    requires IsCollation(fold)
    requires GrantOutcome(c, g) == Done && GrantOutcome(c, h) == Done
    requires SameKey(fold, GrantRule(role, g), GrantRule(role, h)) && !PathVariants(fold, g, h)
    ensures g.path == h.path && UniqueUpper(g.methods) == UniqueUpper(h.methods)
  {
    GrantKeys(fold, c, role, g, h);
  }

  lemma RequestedIsListed(fold: Collation, c: Config, name: string, grants: seq<Grant>, rules: map<Rule, bool>, i: nat)
    requires IsCollation(fold)
    requires StoresFirsts(fold, rules, name, grants) && AllReadBack(name, grants) && i < |grants|
    requires GrantsOutcome(c, grants) == Done && NoPathVariants(fold, grants)
    ensures (grants[i].path, UniqueUpper(grants[i].methods)) in Listed(rules, name)
  {
    var k := FirstExists(fold, GrantRules(name, grants), i);
    AcceptedGrants(c, grants);
    assert GrantOutcome(c, grants[k]) == Done && GrantOutcome(c, grants[i]) == Done;
    SameRequest(fold, c, name, grants[k], grants[i]);
    FirstIsListed(fold, name, grants, rules, k);
  }

  lemma RequestedAreListed(fold: Collation, c: Config, name: string, grants: seq<Grant>, rules: map<Rule, bool>)
    requires IsCollation(fold)
    requires StoresFirsts(fold, rules, name, grants) && AllReadBack(name, grants)
    requires GrantsOutcome(c, grants) == Done && NoPathVariants(fold, grants)
    ensures Requested(grants) <= Listed(rules, name)
  {
    forall p | p in Requested(grants) ensures p in Listed(rules, name) {
      var i :| 0 <= i < |grants| && p == (grants[i].path, UniqueUpper(grants[i].methods));
      RequestedIsListed(fold, c, name, grants, rules, i);
    }
  }

  lemma FirstIsListed(fold: Collation, name: string, grants: seq<Grant>, rules: map<Rule, bool>, k: nat)
    requires StoresFirsts(fold, rules, name, grants) && k < |grants| && ReadsBack(name, grants[k])
    requires FirstOfKey(fold, GrantRules(name, grants), k)
    ensures (grants[k].path, UniqueUpper(grants[k].methods)) in Listed(rules, name)
  {
    assert GrantRules(name, grants)[k] in PoliciesOf(rules, name);
  }

  lemma ListedAreRequested(fold: Collation, name: string, grants: seq<Grant>, rules: map<Rule, bool>)
    requires StoresFirsts(fold, rules, name, grants) && AllReadBack(name, grants)
    ensures Listed(rules, name) <= Requested(grants)
  {
    var rows := GrantRules(name, grants);
    forall p | p in Listed(rules, name) ensures p in Requested(grants) {
      var r :| r in PoliciesOf(rules, name) && p == (r.v1, ReadExpression(r.v2));
      var i :| 0 <= i < |rows| && FirstOfKey(fold, rows, i) && r == rows[i];
      assert ReadsBack(name, grants[i]);
    }
  }

  /** Of two variants one is requested and not listed. */
  lemma VariantIsLost(fold: Collation, c: Config, name: string, grants: seq<Grant>, rules: map<Rule, bool>,
                      i: nat, j: nat)
    requires IsCollation(fold)
    requires StoresFirsts(fold, rules, name, grants) && AllReadBack(name, grants) && GrantsOutcome(c, grants) == Done
    requires i < |grants| && j < |grants| && PathVariants(fold, grants[i], grants[j])
    ensures Listed(rules, name) != Requested(grants)
  {
    var p, q := (grants[i].path, UniqueUpper(grants[i].methods)), (grants[j].path, UniqueUpper(grants[j].methods));
    assert p in Requested(grants) && q in Requested(grants);
    if p in Listed(rules, name) && q in Listed(rules, name) {
      var a := StoredAt(fold, name, grants, rules, p);
      var b := StoredAt(fold, name, grants, rules, q);
      AcceptedGrants(c, grants);
      GrantKeys(fold, c, name, grants[a], grants[b]);
      FirstsAgree(fold, GrantRules(name, grants), a, b);
    }
  }

  lemma FirstsAgree(fold: Collation, rows: seq<Rule>, a: nat, b: nat)
    requires a < |rows| && b < |rows| && SameKey(fold, rows[a], rows[b])
    requires FirstOfKey(fold, rows, a) && FirstOfKey(fold, rows, b)
    ensures a == b
  {
  }

  lemma StoredAt(fold: Collation, name: string, grants: seq<Grant>, rules: map<Rule, bool>, p: (string, seq<string>))
    returns (k: nat)
    requires StoresFirsts(fold, rules, name, grants) && AllReadBack(name, grants) && p in Listed(rules, name)
    ensures k < |grants| && FirstOfKey(fold, GrantRules(name, grants), k)
        && p == (grants[k].path, UniqueUpper(grants[k].methods))
  {
    var rows := GrantRules(name, grants);
    var r :| r in PoliciesOf(rules, name) && p == (r.v1, ReadExpression(r.v2));
    k :| 0 <= k < |rows| && FirstOfKey(fold, rows, k) && r == rows[k];
    assert ReadsBack(name, grants[k]);
  }
}
