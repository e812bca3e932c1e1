/** The paths `plan` gives the files of one module: distinct unless an entity table is called
    "repository", whose file then falls on that of the repository interface. */
module PlannedPaths {
  import opened Text
  import opened Uniques
  import opened Normalizers
  import opened GeneratedFiles

  // ---------------------------------------------------------------- the list of paths

  /** A path by its segments. */
  type Segments = seq<string>

  function Domain(m: string, file: string): Segments { ["internal", "modules", m, "domain", file] }

  const GEN := ".gen.go"

  /** The entity files come first: one per table, or a single one for a schema of version 1. */
  function EntityFiles(version: int, tables: seq<string>): (r: seq<string>)
    ensures |r| == |if version == 2 then tables else ["entity"]|
    ensures forall i :: 0 <= i < |r| ==> r[i] == (if version == 2 then tables else ["entity"])[i] + GEN
  {
    var names := if version == 2 then tables else ["entity"];
    seq(|names|, i requires 0 <= i < |names| => names[i] + GEN)
  }

  function EntityPaths(m: string, files: seq<string>): (r: seq<Segments>)
    ensures |r| == |files| && forall i :: 0 <= i < |r| ==> r[i] == Domain(m, files[i])
  {
    seq(|files|, i requires 0 <= i < |files| => Domain(m, files[i]))
  }

  const REPOSITORY_FILE := "repository.gen.go"

  /** Then the files of the module itself, its permission manifest and the registry. */
  function ModulePaths(m: string): seq<Segments> {
    [Domain(m, REPOSITORY_FILE),
     Domain(m, "rule.go"),
     ["internal", "modules", m, "application", "service.gen.go"],
     ["internal", "modules", m, "infrastructure", "repository.gen.go"],
     ["internal", "modules", m, "api", "handler.gen.go"],
     ["internal", "api", "httpapi", m + "_adapter.gen.go"],
     ["internal", "modules", m, "module.go"],
     Domain(m, "rule_test.go"),
     ["api", "modules", m + ".yaml"],
     ["internal", "infrastructure", "mysql", "generator", "modules.gen.go"],
     ["permissions", "modules", m + ".json"],
     [".agent", "modules.json"]]
  }

  function PathsOf(version: int, m: string, tables: seq<string>): seq<Segments> {
    EntityPaths(m, EntityFiles(version, tables)) + ModulePaths(m)
  }

  ghost predicate AllApart<T>(s: seq<T>) { forall i, j :: 0 <= i < j < |s| ==> s[i] != s[j] }

  // ---------------------------------------------------------------- the module's own paths differ

  /** A number that tells the module's own paths apart: how many segments there are, and how long the
      fourth and the last, or the second, is. */
  function Mark(p: Segments): (nat, nat, nat) {
    if |p| == 5 then (5, |p[3]| + |p[1]|, |p[4]|)
    else if |p| == 4 then (4, |p[1]|, 0)
    else if |p| == 3 then (3, |p[0]|, 0)
    else (|p|, 0, 0)
  }

  function Marks(): seq<(nat, nat, nat)> {
    [(5, 13, 17), (5, 13, 7), (5, 18, 14), (5, 21, 17), (5, 10, 14), (4, 3, 0), (4, 7, 0), (5, 13, 12),
     (3, 3, 0), (5, 23, 14), (3, 11, 0), (2, 0, 0)]
  }

  lemma ModuleMarks(m: string, k: nat)
    requires k < 12
    ensures |ModulePaths(m)| == 12 && Mark(ModulePaths(m)[k]) == Marks()[k]
  {
  }

  lemma MarksApart()
    ensures |Marks()| == 12 && AllApart(Marks())
  {
  }

  lemma ModulePathsApart(m: string)
    ensures |ModulePaths(m)| == 12 && AllApart(ModulePaths(m))
  {
    MarksApart();
    forall i, j | 0 <= i < j < 12 ensures ModulePaths(m)[i] != ModulePaths(m)[j] {
      ModuleMarks(m, i);
      ModuleMarks(m, j);
    }
  }

  // ---------------------------------------------------------------- the entity paths

  lemma SuffixInjective(a: string, b: string)
    requires a + GEN == b + GEN
    ensures a == b
  {
    assert |a| == |b|;
    assert (a + GEN)[..|a|] == a && (b + GEN)[..|b|] == b;
  }

  /** In the domain directory there are three other files; only one of them ends like an entity's. */
  lemma GeneratedNames(name: string)
    requires name != ""
    ensures name + GEN == REPOSITORY_FILE <==> name == "repository"
    ensures name + GEN != "rule.go" && name + GEN != "rule_test.go"
  {
    assert "repository" + GEN == REPOSITORY_FILE;
    if name + GEN == REPOSITORY_FILE { SuffixInjective(name, "repository"); }
    assert |name + GEN| == |name| + 7 && |"rule.go"| == 7;
    assert (name + GEN)[|name|] == '.';
    if |name| == 5 { assert "rule_test.go"[5] == 't'; }
  }

  /** An entity path falls on a module path exactly for the table "repository". */
  lemma EntityMeetsModule(m: string, name: string, k: nat)
    requires name != "" && k < 12
    ensures Domain(m, name + GEN) == ModulePaths(m)[k] <==> name == "repository" && k == 0
  {
    GeneratedNames(name);
    var p := Domain(m, name + GEN);
    ModuleMarks(m, k);
    if k == 0 || k == 1 || k == 7 {
      assert p == ModulePaths(m)[k] <==> p[4] == ModulePaths(m)[k][4];
    } else {
      assert Mark(p).1 == 13;
    }
  }

  lemma EntityPathsApart(m: string, names: seq<string>, files: seq<string>)
    requires |files| == |names| && forall i :: 0 <= i < |names| ==> files[i] == names[i] + GEN
    requires NoRepeats(names)
    ensures AllApart(EntityPaths(m, files))
  {
    forall i, j | 0 <= i < j < |names| ensures EntityPaths(m, files)[i] != EntityPaths(m, files)[j] {
      if files[i] == files[j] { SuffixInjective(names[i], names[j]); }
      assert Domain(m, files[i])[4] == files[i] && Domain(m, files[j])[4] == files[j];
    }
  }

  ghost predicate Valid(tables: seq<string>) { NoRepeats(tables) && forall t :: t in tables ==> TableName(t) }

  /** The planned paths are distinct if and only if no table of a version 2 schema is "repository". */
  lemma PathsApartIff(version: int, m: string, tables: seq<string>)
    requires version == 2 ==> Valid(tables)
    ensures AllApart(PathsOf(version, m, tables)) <==> !(version == 2 && "repository" in tables)
  {
    var names := if version == 2 then tables else ["entity"];
    var files := EntityFiles(version, tables);
    var entities, own, all := EntityPaths(m, files), ModulePaths(m), PathsOf(version, m, tables);
    ModulePathsApart(m);
    EntityPathsApart(m, names, files);
    forall i | 0 <= i < |names| ensures names[i] != "" { assert names[i] in names; }
    if "repository" in names {
      var i :| 0 <= i < |names| && names[i] == "repository";
      EntityMeetsModule(m, names[i], 0);
      assert all[i] == entities[i] && all[|entities|] == own[0];
    } else {
      forall i, j | 0 <= i < j < |all| ensures all[i] != all[j] { Apart(m, names, files, i, j); }
    }
    assert version != 2 ==> names == ["entity"] && "repository" !in names by {
      assert |"entity"| == 6 && |"repository"| == 10;
    }
  }

  lemma Apart(m: string, names: seq<string>, files: seq<string>, i: nat, j: nat)
    requires |files| == |names| && forall k :: 0 <= k < |names| ==> files[k] == names[k] + GEN && names[k] != ""
    requires "repository" !in names && AllApart(EntityPaths(m, files)) && AllApart(ModulePaths(m))
        && |ModulePaths(m)| == 12
    requires i < j < |names| + 12
    ensures (EntityPaths(m, files) + ModulePaths(m))[i] != (EntityPaths(m, files) + ModulePaths(m))[j]
  {
    if i < |names| <= j {
      assert names[i] in names;
      EntityMeetsModule(m, names[i], j - |names|);
    }
  }

  // ---------------------------------------------------------------- written out with slashes

  ghost predicate Plain(s: string) { s != "" && Without(s, '/') }

  /** Names without slashes make different segments different paths. */
  lemma WrittenApart(a: Segments, b: Segments)
    requires AllPlain(a) && AllPlain(b)
    ensures Join(a, '/') == Join(b, '/') <==> a == b
  {
    if Join(a, '/') == Join(b, '/') { JoinInjective(a, b, '/'); }
  }

  lemma NamesArePlain(s: string, suffix: string)
    requires |s| > 0 && WordChars(s) && Without(suffix, '/')
    ensures Plain(s) && Plain(s + suffix)
  {
  }

  ghost predicate AllPlain(p: Segments) { forall i :: 0 <= i < |p| ==> Plain(p[i]) }

  lemma ModulePathsPlain(m: string, k: nat)
    requires PackageName(m) && k < |ModulePaths(m)|
    ensures AllPlain(ModulePaths(m)[k])
  {
    NamesArePlain(m, "_adapter.gen.go");
    NamesArePlain(m, ".yaml");
    NamesArePlain(m, ".json");
  }

  lemma EntityPathPlain(m: string, name: string)
    requires PackageName(m) && name != "" && WordChars(name)
    ensures AllPlain(Domain(m, name + GEN))
  {
    NamesArePlain(m, "");
    NamesArePlain(name, GEN);
  }

  lemma PathsArePlain(version: int, m: string, tables: seq<string>, k: nat)
    requires PackageName(m) && (version == 2 ==> Valid(tables)) && k < |PathsOf(version, m, tables)|
    ensures AllPlain(PathsOf(version, m, tables)[k])
  {
    var names := if version == 2 then tables else ["entity"];
    if k < |names| {
      assert names[k] in names;
      EntityPathPlain(m, names[k]);
    } else {
      ModulePathsPlain(m, k - |names|);
    }
  }

  /** Of the module's own files only the rule and its test are preserved. */
  predicate PreservedAt(k: int) { k == 1 || k == 7 }

  /** The plan of a module, by the paths of its files and which of them are preserved. */
  ghost predicate IsPlanOf(plan: seq<OutputFile>, version: int, m: string, tables: seq<string>) {
    var paths, n := PathsOf(version, m, tables), |EntityFiles(version, tables)|;
    |plan| == |paths|
    && forall k :: 0 <= k < |plan| ==> plan[k].path == Join(paths[k], '/') && plan[k].preserve == PreservedAt(k - n)
  }

  lemma JoinFive(a: string, b: string, c: string, d: string, e: string)
    ensures Join([a, b, c, d, e], '/') == a + "/" + b + "/" + c + "/" + d + "/" + e
  {
    JoinFour(b, c, d, e);
    assert [a, b, c, d, e][1..] == [b, c, d, e];
  }

  lemma JoinFour(a: string, b: string, c: string, d: string)
    ensures Join([a, b, c, d], '/') == a + "/" + b + "/" + c + "/" + d
  {
    JoinThree(b, c, d);
    assert [a, b, c, d][1..] == [b, c, d];
  }

  lemma JoinThree(a: string, b: string, c: string)
    ensures Join([a, b, c], '/') == a + "/" + b + "/" + c
  {
    assert [a, b, c][1..] == [b, c] && [b, c][1..] == [c];
    assert Join([b, c], '/') == b + "/" + c;
  }

  /** Where the entity files of a module are. */
  lemma EntityFilePath(plan: seq<OutputFile>, version: int, m: string, tables: seq<string>, t: nat)
    requires IsPlanOf(plan, version, m, tables) && t < |if version == 2 then tables else ["entity"]|
    ensures t < |plan| && !plan[t].preserve
    ensures plan[t].path
         == "internal/modules/" + m + "/domain/" + (if version == 2 then tables else ["entity"])[t] + ".gen.go"
  {
    var names := if version == 2 then tables else ["entity"];
    JoinFive("internal", "modules", m, "domain", names[t] + GEN);
    assert plan[t].path == Join(Domain(m, names[t] + GEN), '/');
    assert "internal" + "/" + "modules" + "/" + m + "/" + "domain" + "/" + (names[t] + GEN)
        == "internal/modules/" + m + "/domain/" + names[t] + ".gen.go";
  }

  /** The files that are named after the module: its adapter, its contract and its permissions. */
  lemma NamedAfterModule(plan: seq<OutputFile>, version: int, m: string, tables: seq<string>)
    requires IsPlanOf(plan, version, m, tables)
    ensures |plan| == |EntityFiles(version, tables)| + 12
    ensures var n := |EntityFiles(version, tables)|;
      && plan[n + 5].path == "internal/api/httpapi/" + m + "_adapter.gen.go"
      && plan[n + 8].path == "api/modules/" + m + ".yaml"
      && plan[n + 10].path == "permissions/modules/" + m + ".json"
  {
    AdapterPath(m);
    ContractPath(m);
    PermissionsPath(m);
  }

  lemma AdapterPath(m: string)
    ensures Join(ModulePaths(m)[5], '/') == "internal/api/httpapi/" + m + "_adapter.gen.go"
  {
    JoinFour("internal", "api", "httpapi", m + "_adapter.gen.go");
    assert "internal" + "/" + "api" + "/" + "httpapi" + "/" == "internal/api/httpapi/";
  }

  lemma ContractPath(m: string)
    ensures Join(ModulePaths(m)[8], '/') == "api/modules/" + m + ".yaml"
  {
    JoinThree("api", "modules", m + ".yaml");
    assert "api" + "/" + "modules" + "/" == "api/modules/";
  }

  lemma PermissionsPath(m: string)
    ensures Join(ModulePaths(m)[10], '/') == "permissions/modules/" + m + ".json"
  {
    JoinThree("permissions", "modules", m + ".json");
    assert "permissions" + "/" + "modules" + "/" == "permissions/modules/";
  }

  /** Of the module's files exactly the rule and its test are preserved. */
  lemma PreservedFiles(plan: seq<OutputFile>, version: int, m: string, tables: seq<string>, k: nat)
    requires IsPlanOf(plan, version, m, tables) && k < 12
    ensures |plan| == |EntityFiles(version, tables)| + 12
    ensures plan[|EntityFiles(version, tables)| + k].preserve <==>
      ModulePaths(m)[k] == ["internal", "modules", m, "domain", "rule.go"]
      || ModulePaths(m)[k] == ["internal", "modules", m, "domain", "rule_test.go"]
  {
    ModulePathsApart(m);
    assert ModulePaths(m)[1] == ["internal", "modules", m, "domain", "rule.go"];
    assert ModulePaths(m)[7] == ["internal", "modules", m, "domain", "rule_test.go"];
  }

  /** Planned paths are equal exactly when their segments are. */
  lemma SamePath(plan: seq<OutputFile>, version: int, m: string, tables: seq<string>, i: nat, j: nat)
    requires PackageName(m) && (version == 2 ==> Valid(tables)) && IsPlanOf(plan, version, m, tables)
    requires i < |plan| && j < |plan|
    ensures plan[i].path == plan[j].path <==> PathsOf(version, m, tables)[i] == PathsOf(version, m, tables)[j]
  {
    PathsArePlain(version, m, tables, i);
    PathsArePlain(version, m, tables, j);
    WrittenApart(PathsOf(version, m, tables)[i], PathsOf(version, m, tables)[j]);
  }

  /** For the module names and tables a schema may have: the plan's paths are distinct exactly without a
      table "repository" in version 2. */
  lemma PlanIsDistinctIff(plan: seq<OutputFile>, version: int, m: string, tables: seq<string>)
    requires PackageName(m) && (version == 2 ==> Valid(tables)) && IsPlanOf(plan, version, m, tables)
    ensures DistinctPaths(plan) <==> !(version == 2 && "repository" in tables)
  {
    PathsApartIff(version, m, tables);
    forall i, j | 0 <= i < j < |plan|
      ensures plan[i].path == plan[j].path <==> PathsOf(version, m, tables)[i] == PathsOf(version, m, tables)[j]
    {
      SamePath(plan, version, m, tables, i, j);
    }
  }

  /** The file of that table and the repository interface have the same path and different contents. */
  ghost predicate Overwritten(plan: seq<OutputFile>, version: int, tables: seq<string>) {
    version == 2 && |tables| < |plan| &&
    exists t :: 0 <= t < |tables| && tables[t] == "repository" && plan[t].content != plan[|tables|].content
  }

  /** Two equal paths of the plan are those two. */
  lemma OnlyRepeat(version: int, m: string, tables: seq<string>, i: nat, j: nat)
    requires version == 2 ==> Valid(tables)
    requires i < j < |PathsOf(version, m, tables)| && PathsOf(version, m, tables)[i] == PathsOf(version, m, tables)[j]
    ensures version == 2 && j == |tables| && i < |tables| && tables[i] == "repository"
  {
    var names := if version == 2 then tables else ["entity"];
    var files := EntityFiles(version, tables);
    ModulePathsApart(m);
    forall k | 0 <= k < |names| ensures names[k] != "" { assert names[k] in names; }
    EntityPathsApart(m, names, files);
    if i < |names| <= j {
      EntityMeetsModule(m, names[i], j - |names|);
      assert |"entity"| == 6 && |"repository"| == 10;
    }
  }

  /** The plan is consistent exactly when that does not happen. */
  lemma PlanIsConsistentIff(plan: seq<OutputFile>, version: int, m: string, tables: seq<string>)
    requires PackageName(m) && (version == 2 ==> Valid(tables)) && IsPlanOf(plan, version, m, tables)
    ensures Consistent(plan) <==> !Overwritten(plan, version, tables)
  {
    if Overwritten(plan, version, tables) {
      var t :| 0 <= t < |tables| && tables[t] == "repository" && plan[t].content != plan[|tables|].content;
      RepositoryMeets(plan, m, tables, t);
    } else {
      forall i, j | 0 <= i < j < |plan| && plan[i].path == plan[j].path
        ensures plan[i].content == plan[j].content && !plan[i].preserve && !plan[j].preserve
      {
        SamePath(plan, version, m, tables, i, j);
        OnlyRepeat(version, m, tables, i, j);
      }
    }
  }

  lemma RepositoryMeets(plan: seq<OutputFile>, m: string, tables: seq<string>, t: nat)
    requires PackageName(m) && Valid(tables) && IsPlanOf(plan, 2, m, tables)
    requires t < |tables| && tables[t] == "repository"
    ensures |tables| < |plan| && plan[t].path == plan[|tables|].path
    ensures !plan[t].preserve && !plan[|tables|].preserve
    ensures forall k :: |tables| < k < |plan| ==> plan[k].path != plan[|tables|].path
  {
    var paths, n := PathsOf(2, m, tables), |tables|;
    ModulePathsApart(m);
    EntityMeetsModule(m, "repository", 0);
    assert paths[n] == ModulePaths(m)[0] && paths[t] == paths[n];
    SamePath(plan, 2, m, tables, t, n);
    forall k | n < k < |plan| ensures plan[k].path != plan[n].path {
      assert paths[k] == ModulePaths(m)[k - n];
      SamePath(plan, 2, m, tables, k, n);
    }
  }

  /** With that table and different contents, a check right after generating reports drift: the
      entity's file was overwritten by the repository interface. */
  lemma RepositoryTableDrifts(files: Files, plan: seq<OutputFile>, m: string, tables: seq<string>, t: nat)
    requires PackageName(m) && Valid(tables) && IsPlanOf(plan, 2, m, tables)
    requires t < |tables| && tables[t] == "repository" && plan[t].content != plan[|tables|].content
    ensures Differs(WriteAll(files, plan), plan[t])
  {
    RepositoryMeets(plan, m, tables, t);
    RepeatedPathDrifts(files, plan, t, |tables|);
  }
}
