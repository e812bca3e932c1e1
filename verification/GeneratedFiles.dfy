/** Module generation and managed-file reconciliation over a repository of files.  JSON encoding is
    taken as invertible, template rendering as a function of the registry (the schema and the
    options are fixed within one run). */
module GeneratedFiles {
  import opened Text
  import opened Ordering
  import opened Uniques
  import opened Options

  datatype ModuleInfo = ModuleInfo(name: string, entity: string, entities: seq<string>, schema: string)
  datatype Registry = Registry(version: int, modules: seq<ModuleInfo>)
  datatype Manifest = Manifest(version: int, files: seq<string>)

  /** File contents.  `layout` tells apart byte sequences that decode to the same value; the
      encoder always writes the layout "". */
  datatype Content =
    | RegistryJson(registry: Registry, layout: string)
    | ManifestJson(manifest: Manifest, layout: string)
    | Bytes(text: string)

  type Files = map<string, Content>

  datatype OutputFile = OutputFile(path: string, content: Content, preserve: bool)

  const REGISTRY_PATH := ".agent/modules.json"
  const MANIFEST_PATH := ".agent/generated-files.json"
  const REGISTRY_VERSION := 1
  const MANIFEST_VERSION := 1

  // ---------------------------------------------------------------- the registry plan

  predicate NameLe(a: ModuleInfo, b: ModuleInfo) { StrLe(a.name, b.name) }

  function Replace(ms: seq<ModuleInfo>, e: ModuleInfo): (r: seq<ModuleInfo>)
    ensures |r| == |ms| && forall i :: 0 <= i < |ms| ==> r[i] == if ms[i].name == e.name then e else ms[i]
  {
    seq(|ms|, i requires 0 <= i < |ms| => if ms[i].name == e.name then e else ms[i])
  }

  predicate Registered(ms: seq<ModuleInfo>, name: string) { exists i :: 0 <= i < |ms| && ms[i].name == name }

  function Upsert(ms: seq<ModuleInfo>, e: ModuleInfo): seq<ModuleInfo> {
    Sort(NameLe, if Registered(ms, e.name) then Replace(ms, e) else ms + [e])
  }

  ghost predicate UniqueNames(ms: seq<ModuleInfo>) {
    forall i, j :: 0 <= i < j < |ms| ==> ms[i].name != ms[j].name
  }

  lemma NameLePreOrder()
    ensures PreOrder(NameLe)
  {
    forall x, y ensures NameLe(x, y) || NameLe(y, x) { StrLeTotal(x.name, y.name); }
    forall x, y, z | NameLe(x, y) && NameLe(y, z) ensures NameLe(x, z) {
      StrLeTransitive(x.name, y.name, z.name);
    }
  }

  lemma SortedOfUnique(ms: seq<ModuleInfo>)
    requires UniqueNames(ms)
    ensures UniqueNames(Sort(NameLe, ms)) && SortedBy(NameLe, Sort(NameLe, ms))
    ensures forall m :: m in Sort(NameLe, ms) <==> m in ms
  {
    var s := Sort(NameLe, ms);
    NameLePreOrder();
    SortIsSorted(NameLe, ms);
    SortIsPermutation(NameLe, ms);
    MembersOfMultiset(ms, s);
    forall i, j | 0 <= i < j < |s| ensures s[i].name != s[j].name {
      assert s[i] in ms && s[j] in ms;
      var k :| 0 <= k < |ms| && ms[k] == s[i];
      var l :| 0 <= l < |ms| && ms[l] == s[j];
      OnceInSequence(ms, k);
      if s[i] == s[j] { TwiceInSequence(s, i, j); }
    }
  }

  lemma SortedRegistryIsFixed(ms: seq<ModuleInfo>)
    requires UniqueNames(ms) && SortedBy(NameLe, ms)
    ensures Sort(NameLe, ms) == ms
  {
    NameLePreOrder();
    forall x, y | x in ms && y in ms && NameLe(x, y) && NameLe(y, x) ensures x == y { StrLeTotal(x.name, y.name); }
    SortOfSorted(NameLe, ms);
  }

  lemma RawEntry(ms: seq<ModuleInfo>, e: ModuleInfo)
    requires UniqueNames(ms)
    ensures var raw := if Registered(ms, e.name) then Replace(ms, e) else ms + [e];
      UniqueNames(raw) && e in raw
  {
    var raw := if Registered(ms, e.name) then Replace(ms, e) else ms + [e];
    if Registered(ms, e.name) {
      var i :| 0 <= i < |ms| && ms[i].name == e.name;
      assert raw[i] == e;
    } else {
      assert raw[|ms|] == e;
    }
  }

  lemma ReplaceBySame(u: seq<ModuleInfo>, e: ModuleInfo)
    requires UniqueNames(u) && e in u
    ensures Registered(u, e.name) && Replace(u, e) == u
  {
    var k :| 0 <= k < |u| && u[k] == e;
  }

  /** Registering a module again leaves the registry as it is. */
  lemma UpsertTwice(ms: seq<ModuleInfo>, e: ModuleInfo)
    requires UniqueNames(ms)
    ensures UniqueNames(Upsert(ms, e)) && e in Upsert(ms, e)
    ensures Upsert(Upsert(ms, e), e) == Upsert(ms, e)
  {
    RawEntry(ms, e);
    SortedOfUnique(if Registered(ms, e.name) then Replace(ms, e) else ms + [e]);
    ReplaceBySame(Upsert(ms, e), e);
    SortedRegistryIsFixed(Upsert(ms, e));
  }

  /** The other modules stay as they were. */
  lemma UpsertKeepsOthers(ms: seq<ModuleInfo>, e: ModuleInfo, m: ModuleInfo)
    requires m.name != e.name
    ensures m in Upsert(ms, e) <==> m in ms
  {
    var raw := if Registered(ms, e.name) then Replace(ms, e) else ms + [e];
    SortIsPermutation(NameLe, raw);
    MembersOfMultiset(raw, Upsert(ms, e));
    if m in ms {
      var i :| 0 <= i < |ms| && ms[i] == m;
      assert raw[i] == m;
    }
  }

  /** `planRegistry` */
  function PlannedRegistry(files: Files, e: ModuleInfo): Option<Registry> {
    if REGISTRY_PATH !in files then Some(Registry(REGISTRY_VERSION, Upsert([], e)))
    else match files[REGISTRY_PATH]
         case RegistryJson(r, _) =>
           if r.version != REGISTRY_VERSION then None else Some(Registry(REGISTRY_VERSION, Upsert(r.modules, e)))
         case _ => None
  }

  function RegistryFile(r: Registry): OutputFile { OutputFile(REGISTRY_PATH, RegistryJson(r, ""), false) }

  /** `plan`: rendered files followed by the registry. */
  function Planned(files: Files, e: ModuleInfo, render: Registry -> seq<OutputFile>): Option<seq<OutputFile>> {
    match PlannedRegistry(files, e)
    case None => None
    case Some(r) => Some(render(r) + [RegistryFile(r)])
  }

  ghost predicate DistinctPaths(plan: seq<OutputFile>) {
    forall i, j :: 0 <= i < j < |plan| ==> plan[i].path != plan[j].path
  }

  /** A path may be planned twice if both files are generated and have the same content. */
  ghost predicate Consistent(plan: seq<OutputFile>) {
    forall i, j :: 0 <= i < j < |plan| && plan[i].path == plan[j].path ==>
      plan[i].content == plan[j].content && !plan[i].preserve && !plan[j].preserve
  }

  // ---------------------------------------------------------------- writing a plan

  function Write(files: Files, f: OutputFile): Files {
    if f.preserve && f.path in files then files else files[f.path := f.content]
  }

  function WriteAll(files: Files, plan: seq<OutputFile>): Files {
    if plan == [] then files else Write(WriteAll(files, plan[..|plan| - 1]), plan[|plan| - 1])
  }

  /** A file is reported when it is missing, or differs and is not preserved. */
  predicate Differs(files: Files, f: OutputFile) {
    f.path !in files || (!f.preserve && files[f.path] != f.content)
  }

  lemma {:induction false} WriteAllElsewhere(files: Files, plan: seq<OutputFile>, path: string)
    requires forall i :: 0 <= i < |plan| ==> plan[i].path != path
    ensures path in WriteAll(files, plan) <==> path in files
    ensures path in files ==> WriteAll(files, plan)[path] == files[path]
  {
    if plan != [] { WriteAllElsewhere(files, plan[..|plan| - 1], path); }
  }

  /** After a consistent plan is written, each planned file is there with the planned content, except
      that a preserved file that existed is untouched. */
  lemma {:induction false} WrittenFile(files: Files, plan: seq<OutputFile>, i: nat)
    requires Consistent(plan) && i < |plan|
    ensures plan[i].path in WriteAll(files, plan)
    ensures WriteAll(files, plan)[plan[i].path] ==
            if plan[i].preserve && plan[i].path in files then files[plan[i].path] else plan[i].content
  {
    var front, last := plan[..|plan| - 1], |plan| - 1;
    if i == last {
      if plan[i].preserve {
        forall k | 0 <= k < |front| ensures front[k].path != plan[i].path { assert front[k] == plan[k]; }
        WriteAllElsewhere(files, front, plan[i].path);
      }
    } else {
      assert front[i] == plan[i];
      WrittenFile(files, front, i);
    }
  }

  lemma {:induction false} NothingDiffersAfterWriting(files: Files, plan: seq<OutputFile>, i: nat)
    requires Consistent(plan) && i < |plan|
    ensures !Differs(WriteAll(files, plan), plan[i])
  {
    WrittenFile(files, plan, i);
  }

  lemma {:induction false} LastWriteWins(files: Files, plan: seq<OutputFile>, j: nat)
    requires j < |plan| && !plan[j].preserve && forall k :: j < k < |plan| ==> plan[k].path != plan[j].path
    ensures plan[j].path in WriteAll(files, plan) && WriteAll(files, plan)[plan[j].path] == plan[j].content
  {
    if j < |plan| - 1 {
      assert plan[..|plan| - 1][j] == plan[j];
      LastWriteWins(files, plan[..|plan| - 1], j);
    }
  }

  /** A path planned twice with different contents is reported as drift right after it was written. */
  lemma RepeatedPathDrifts(files: Files, plan: seq<OutputFile>, i: nat, j: nat)
    requires i < j < |plan| && plan[i].path == plan[j].path && !plan[i].preserve && !plan[j].preserve
    requires plan[i].content != plan[j].content && forall k :: j < k < |plan| ==> plan[k].path != plan[j].path
    ensures Differs(WriteAll(files, plan), plan[i])
  {
    LastWriteWins(files, plan, j);
  }

  ghost predicate UniqueRegistry(files: Files) {
    REGISTRY_PATH in files && files[REGISTRY_PATH].RegistryJson? ==> UniqueNames(files[REGISTRY_PATH].registry.modules)
  }

  /** Planning again after writing gives the same plan: the registry is written last. */
  lemma PlanIsStable(files: Files, e: ModuleInfo, render: Registry -> seq<OutputFile>)
    requires Planned(files, e, render).Some? && UniqueRegistry(files)
    ensures var plan := Planned(files, e, render).value;
            Planned(WriteAll(files, plan), e, render) == Some(plan)
  {
    var plan := Planned(files, e, render).value;
    var last := |plan| - 1;
    assert plan[last] == RegistryFile(PlannedRegistry(files, e).value);
    LastWriteWins(files, plan, last);
    UpsertTwice(if REGISTRY_PATH in files then files[REGISTRY_PATH].registry.modules else [], e);
  }

  /** Generation is a fixed point: after writing, a check finds no difference from the same plan and a
      second generation changes no file. */
  lemma GenerationIsFixedPoint(files: Files, e: ModuleInfo, render: Registry -> seq<OutputFile>)
    requires Planned(files, e, render).Some? && UniqueRegistry(files)
    requires Consistent(Planned(files, e, render).value)
    ensures var plan := Planned(files, e, render).value;
            var after := WriteAll(files, plan);
            && Planned(after, e, render) == Some(plan)
            && (forall i :: 0 <= i < |plan| ==> !Differs(after, plan[i]))
            && WriteAll(after, plan) == after
  {
    var plan := Planned(files, e, render).value;
    var after := WriteAll(files, plan);
    PlanIsStable(files, e, render);
    forall i | 0 <= i < |plan| ensures !Differs(after, plan[i]) { NothingDiffersAfterWriting(files, plan, i); }
    RewritingChangesNothing(after, plan);
  }

  lemma {:induction false} RewritingChangesNothing(files: Files, plan: seq<OutputFile>)
    requires forall i :: 0 <= i < |plan| ==> !Differs(files, plan[i])
    ensures WriteAll(files, plan) == files
  {
    if plan != [] { RewritingChangesNothing(files, plan[..|plan| - 1]); }
  }

  // ---------------------------------------------------------------- managed files

  function NotIn(previous: seq<string>, wanted: seq<string>): seq<string> {
    if previous == [] then []
    else NotIn(previous[..|previous| - 1], wanted)
         + (if previous[|previous| - 1] in wanted then [] else [previous[|previous| - 1]])
  }

  /** `difference`: previous paths no longer expected, sorted. */
  function Difference(previous: seq<string>, expected: seq<string>): seq<string> {
    Sort(StrLe, NotIn(previous, expected))
  }

  lemma {:induction false} WithoutMembers(previous: seq<string>, wanted: seq<string>, x: string)
    ensures x in NotIn(previous, wanted) <==> x in previous && x !in wanted
  {
    if previous != [] {
      var front, last := previous[..|previous| - 1], previous[|previous| - 1];
      WithoutMembers(front, wanted, x);
      assert previous == front + [last];
    }
  }

  lemma DifferenceMembers(previous: seq<string>, expected: seq<string>, x: string)
    ensures x in Difference(previous, expected) <==> x in previous && x !in expected
  {
    WithoutMembers(previous, expected, x);
    SortIsPermutation(StrLe, NotIn(previous, expected));
    MembersOfMultiset(NotIn(previous, expected), Difference(previous, expected));
  }

  lemma DifferenceWithItself(xs: seq<string>)
    ensures Difference(xs, xs) == []
  {
    var d := Difference(xs, xs);
    if d != [] {
      DifferenceMembers(xs, xs, d[0]);
      assert false;
    }
  }

  function PreviousFiles(files: Files): Option<seq<string>> {
    if MANIFEST_PATH !in files then Some([])
    else match files[MANIFEST_PATH]
         case ManifestJson(m, _) => if m.version == MANIFEST_VERSION then Some(m.files) else None
         case _ => None
  }

  function Encoded(expected: seq<string>): Content { ManifestJson(Manifest(MANIFEST_VERSION, expected), "") }

  /** The files the stale entries denote. */
  ghost function Denoted(join: string -> Option<string>, entries: seq<string>): set<string> {
    set i | 0 <= i < |entries| && join(entries[i]).Some? :: join(entries[i]).value
  }

  /** What a successful reconciliation leaves. */
  ghost function Reconciled(join: string -> Option<string>, files: Files, expected: seq<string>): Files
    requires PreviousFiles(files).Some?
  {
    var stale := Difference(PreviousFiles(files).value, Unique(expected));
    (files - Denoted(join, stale))[MANIFEST_PATH := Encoded(Unique(expected))]
  }

  ghost predicate OnlyRemoved(before: Files, after: Files, allowed: set<string>) {
    && after.Keys <= before.Keys && before.Keys - allowed <= after.Keys
    && forall f :: f in after ==> after[f] == before[f]
  }

  /** The entry is confined to the repository, and its file is gone already or carries a marker. */
  ghost predicate PrunableEntry(join: string -> Option<string>, marked: Content -> bool, files: Files, entry: string) {
    join(entry).Some? && (join(entry).value in files ==> marked(files[join(entry).value]))
  }

  ghost predicate Prunable(join: string -> Option<string>, marked: Content -> bool, files: Files, stale: seq<string>) {
    forall k :: 0 <= k < |stale| ==> PrunableEntry(join, marked, files, stale[k])
  }

  lemma DenotedPrefix(join: string -> Option<string>, entries: seq<string>, i: nat)
    requires i <= |entries|
    ensures Denoted(join, entries[..i]) <= Denoted(join, entries)
  {
    forall f | f in Denoted(join, entries[..i]) ensures f in Denoted(join, entries) {
      var k :| 0 <= k < i && join(entries[..i][k]) == Some(f);
      assert join(entries[k]) == Some(f);
    }
  }

  /** Some previous entry that is not expected any more, in its own spelling, denotes the file. */
  ghost predicate Condemned(join: string -> Option<string>, files: Files, expected: seq<string>, file: string)
    requires PreviousFiles(files).Some?
  {
    exists p :: p in PreviousFiles(files).value && p !in Unique(expected) && join(p) == Some(file)
  }

  lemma DenotedIff(join: string -> Option<string>, files: Files, expected: seq<string>, file: string)
    requires PreviousFiles(files).Some?
    ensures file in Denoted(join, Difference(PreviousFiles(files).value, Unique(expected)))
            <==> Condemned(join, files, expected, file)
  {
    var previous := PreviousFiles(files).value;
    var stale := Difference(previous, Unique(expected));
    if file in Denoted(join, stale) {
      var i :| 0 <= i < |stale| && join(stale[i]) == Some(file);
      assert stale[i] in stale;
      DifferenceMembers(previous, Unique(expected), stale[i]);
    }
    if Condemned(join, files, expected, file) {
      var p :| p in previous && p !in Unique(expected) && join(p) == Some(file);
      DifferenceMembers(previous, Unique(expected), p);
      var i :| 0 <= i < |stale| && stale[i] == p;
    }
  }

  /** Of all files, in the lists or not, exactly the condemned ones are gone; the manifest is the
      expected one, and nothing else is altered or added. */
  lemma PruningIsExact(join: string -> Option<string>, files: Files, expected: seq<string>, file: string)
    requires PreviousFiles(files).Some?
    ensures var after := Reconciled(join, files, expected);
            if file == MANIFEST_PATH then file in after && after[file] == Encoded(Unique(expected))
            else (file in after <==> file in files && !Condemned(join, files, expected, file))
                 && (file in after ==> after[file] == files[file])
  {
    DenotedIff(join, files, expected, file);
  }

  /** An expected file that exists survives unchanged if and only if the previous manifest has no entry
      for it under a spelling that is not expected. */
  lemma ExpectedSurvivesIff(join: string -> Option<string>, files: Files, expected: seq<string>, path: string)
    requires PreviousFiles(files).Some? && path in Unique(expected)
    requires join(path).Some? && join(path).value != MANIFEST_PATH && join(path).value in files
    ensures var f, after := join(path).value, Reconciled(join, files, expected);
            f in after && after[f] == files[f] <==>
            !exists p :: p in PreviousFiles(files).value && p !in Unique(expected) && join(p) == join(path)
  {
    PruningIsExact(join, files, expected, join(path).value);
  }

  /** `bytes.Contains` */
  ghost predicate Contains(text: string, part: string) {
    exists i :: 0 <= i <= |text| && part <= text[i..]
  }

  const MARKER := "Code generated"

  /** Such a file: it carries the marker, and the previous manifest spells its path in another way. */
  const RESPELLED: Files := map["a.go" := Bytes(MARKER), MANIFEST_PATH := Encoded(["./a.go"])]

  lemma RespelledIsStale()
    ensures PreviousFiles(RESPELLED) == Some(["./a.go"])
    ensures forall x :: x in Difference(["./a.go"], Unique(["a.go"])) <==> x == "./a.go"
    ensures "a.go" in Unique(["a.go"])
  {
    UniqueCorrect(["a.go"]);
    TrimOfTrimmed("a.go");
    assert ["a.go"][0] == "a.go";
    assert |"./a.go"| == 6 && |"a.go"| == 4;
    assert !Occurs(["a.go"], "./a.go");
    forall x ensures x in Difference(["./a.go"], Unique(["a.go"])) <==> x == "./a.go" {
      DifferenceMembers(["./a.go"], Unique(["a.go"]), x);
    }
  }

  lemma RespelledIsPrunable(join: string -> Option<string>, marked: Content -> bool)
    requires join("./a.go") == Some("a.go") && marked(Bytes(MARKER))
    ensures Prunable(join, marked, RESPELLED, Difference(["./a.go"], Unique(["a.go"])))
  {
    var stale := Difference(["./a.go"], Unique(["a.go"]));
    RespelledIsStale();
    forall k | 0 <= k < |stale| ensures PrunableEntry(join, marked, RESPELLED, stale[k]) { assert stale[k] in stale; }
  }

  /** The expected file is removed: nothing refuses it. */
  lemma PruningUnderAnotherSpelling(join: string -> Option<string>, marked: Content -> bool)
    requires join("./a.go") == Some("a.go") && join("a.go") == Some("a.go")
    requires forall t :: Contains(t, MARKER) ==> marked(Bytes(t))
    ensures PreviousFiles(RESPELLED) == Some(["./a.go"]) && "a.go" in Unique(["a.go"]) && "a.go" in RESPELLED
    ensures Prunable(join, marked, RESPELLED, Difference(["./a.go"], Unique(["a.go"])))
    ensures "a.go" !in Reconciled(join, RESPELLED, ["a.go"])
  {
    RespelledIsStale();
    assert MARKER[0..] == MARKER;
    assert Contains(MARKER, MARKER);
    RespelledIsPrunable(join, marked);
    assert |MANIFEST_PATH| > 4;
    PruningIsExact(join, RESPELLED, ["a.go"], "a.go");
    assert "./a.go" !in Unique(["a.go"]) by { DifferenceMembers(["./a.go"], Unique(["a.go"]), "./a.go"); }
  }

  // ---------------------------------------------------------------- the procedures

  datatype GenerateResult = Failed | Drift(changed: seq<string>) | Generated(changed: seq<string>, managed: seq<string>)

  datatype ReconcileResult = ReconcileFailed | Stale(stale: seq<string>) | ManifestDrift | Done(stale: seq<string>)

  /** The paths of the planned files that satisfy a condition, sorted. */
  function ChangedPaths(files: Files, plan: seq<OutputFile>): seq<string> {
    if plan == [] then []
    else ChangedPaths(files, plan[..|plan| - 1])
         + (if Differs(files, plan[|plan| - 1]) then [plan[|plan| - 1].path] else [])
  }

  function ManagedPaths(plan: seq<OutputFile>): seq<string> {
    if plan == [] then []
    else ManagedPaths(plan[..|plan| - 1]) + (if plan[|plan| - 1].preserve then [] else [plan[|plan| - 1].path])
  }

  /** The managed files are the planned ones that are not preserved ... */
  lemma {:induction false} ManagedIff(plan: seq<OutputFile>, path: string)
    ensures path in ManagedPaths(plan) <==> exists i :: 0 <= i < |plan| && plan[i].path == path && !plan[i].preserve
  {
    if plan != [] {
      var front := plan[..|plan| - 1];
      ManagedIff(front, path);
      assert forall i :: 0 <= i < |front| ==> plan[i] == front[i];
    }
  }

  ghost predicate IsChange(files: Files, f: OutputFile) {
    f.path in files ==> files[f.path] != f.content && !f.preserve
  }

  /** ... and the changed ones those that are missing, or differ and are not preserved. */
  lemma {:induction false} ChangedIff(files: Files, plan: seq<OutputFile>, path: string)
    ensures path in ChangedPaths(files, plan) <==>
      exists i :: 0 <= i < |plan| && plan[i].path == path && IsChange(files, plan[i])
  {
    if plan != [] {
      var front := plan[..|plan| - 1];
      ChangedIff(files, front, path);
      assert forall i :: 0 <= i < |front| ==> plan[i] == front[i];
    }
  }

  lemma {:induction false} ChangedPathsEmpty(files: Files, plan: seq<OutputFile>)
    ensures ChangedPaths(files, plan) == [] <==> forall i :: 0 <= i < |plan| ==> !Differs(files, plan[i])
  {
    if plan != [] {
      ChangedPathsEmpty(files, plan[..|plan| - 1]);
      var front := plan[..|plan| - 1];
      assert forall i :: 0 <= i < |front| ==> front[i] == plan[i];
    }
  }

  lemma SortEmpty(s: seq<string>)
    ensures Sort(StrLe, s) == [] <==> s == []
  {
    SortIsPermutation(StrLe, s);
    MembersOfMultiset(s, Sort(StrLe, s));
  }

  class Repository {
    var files: Files

    /** `planRegistry` */
    method PlanRegistry(e: ModuleInfo) returns (r: Option<Registry>)
      ensures r == PlannedRegistry(files, e)
    {
      var modules: seq<ModuleInfo> := [];
      if REGISTRY_PATH in files {
        match files[REGISTRY_PATH]
        case RegistryJson(value, _) =>
          if value.version != REGISTRY_VERSION {
            return None;
          }
          modules := value.modules;
        case _ =>
          return None;
      }
      var registered := RegisterModule(modules, e);
      r := Some(Registry(REGISTRY_VERSION, registered));
    }

    /** `Generate`: in check mode report the differing files and write nothing; otherwise write the
        plan, skipping preserved files that exist. */
    method Generate(e: ModuleInfo, render: Registry -> seq<OutputFile>, check: bool) returns (result: GenerateResult)
      modifies this
      ensures result.Failed? <==> Planned(old(files), e, render).None?
      ensures check || result.Failed? ==> files == old(files)
      ensures Planned(old(files), e, render).Some? ==>
                var plan := Planned(old(files), e, render).value;
                && (result.Drift? <==> check && exists i :: 0 <= i < |plan| && Differs(old(files), plan[i]))
                && (!check ==> files == WriteAll(old(files), plan))
                && (result.Drift? || result.Generated? ==>
                   result.changed == Sort(StrLe, ChangedPaths(old(files), plan)))
                && (result.Generated? ==> result.managed == Sort(StrLe, ManagedPaths(plan)))
    {
      var registry := PlanRegistry(e);
      if registry.None? {
        return Failed;
      }
      var plan := render(registry.value) + [RegistryFile(registry.value)];
      var changed, managed := Inspect(plan);
      ChangedPathsEmpty(files, plan);
      SortEmpty(ChangedPaths(files, plan));
      if check {
        if |changed| > 0 {
          return Drift(changed);
        }
        return Generated(changed, managed);
      }
      WritePlan(plan);
      result := Generated(changed, managed);
    }

    /** The first loop of `Generate`. */
    method Inspect(plan: seq<OutputFile>) returns (changed: seq<string>, managed: seq<string>)
      ensures changed == Sort(StrLe, ChangedPaths(files, plan))
      ensures managed == Sort(StrLe, ManagedPaths(plan))
    {
      changed, managed := [], [];
      for i := 0 to |plan|
        invariant changed == ChangedPaths(files, plan[..i]) && managed == ManagedPaths(plan[..i])
      {
        assert plan[..i + 1][..i] == plan[..i];
        var f := plan[i];
        var exists_ := f.path in files;
        if f.preserve && exists_ {
          continue;
        }
        if !f.preserve {
          managed := managed + [f.path];
        }
        if exists_ && files[f.path] == f.content {
          continue;
        }
        changed := changed + [f.path];
      }
      assert plan[..|plan|] == plan;
      changed, managed := Sort(StrLe, changed), Sort(StrLe, managed);
    }

    /** The second loop of `Generate`. */
    method WritePlan(plan: seq<OutputFile>)
      modifies this
      ensures files == WriteAll(old(files), plan)
    {
      for i := 0 to |plan|
        invariant files == WriteAll(old(files), plan[..i])
      {
        assert plan[..i + 1][..i] == plan[..i];
        if plan[i].preserve && plan[i].path in files {
          continue;
        }
        files := files[plan[i].path := plan[i].content];
      }
      assert plan[..|plan|] == plan;
    }

    /** `removeGeneratedArtifact`: a missing file is fine, a file without a marker is refused. */
    method RemoveArtifact(path: string, marked: Content -> bool) returns (ok: bool)
      modifies this
      ensures ok <==> path !in old(files) || marked(old(files)[path])
      ensures files == if ok then old(files) - {path} else old(files)
    {
      if path !in files {
        return true;
      }
      if !marked(files[path]) {
        return false;
      }
      files := files - {path};
      ok := true;
    }

    /** The pruning loop.  When it stops early, what it removed was stale. */
    method Prune(join: string -> Option<string>, marked: Content -> bool, stale: seq<string>) returns (ok: bool)
      modifies this
      ensures ok <==> Prunable(join, marked, old(files), stale)
      ensures ok ==> files == old(files) - Denoted(join, stale)
      ensures OnlyRemoved(old(files), files, Denoted(join, stale))
    {
      for i := 0 to |stale|
        invariant files == old(files) - Denoted(join, stale[..i])
        invariant forall k :: 0 <= k < i ==> PrunableEntry(join, marked, old(files), stale[k])
      {
        DenotedPrefix(join, stale, i);
        var path := join(stale[i]);
        if path.None? {
          return false;
        }
        DenotedSnoc(join, stale, i);
        DenotedPrefix(join, stale, i + 1);
        ok := RemoveArtifact(path.value, marked);
        if !ok {
          return;
        }
      }
      assert stale[..|stale|] == stale;
      ok := true;
    }

    /** `ReconcileManagedFiles` */
    method Reconcile(join: string -> Option<string>, marked: Content -> bool,
                     expected: seq<string>, check: bool, prune: bool)
      returns (result: ReconcileResult)
      modifies this
      ensures check ==> files == old(files)
      ensures result.Stale? || result.ManifestDrift? ==> files == old(files)
      ensures result.Done? && !check ==>
                PreviousFiles(old(files)).Some? && files == Reconciled(join, old(files), expected)
      ensures result.Done? && check <==>
                check && MANIFEST_PATH in files && files[MANIFEST_PATH] == Encoded(Unique(expected))
      ensures result.Stale? || result.Done? ==>
                && PreviousFiles(old(files)).Some?
                && result.stale == Difference(PreviousFiles(old(files)).value, Unique(expected))
      ensures result.ReconcileFailed? ==>
                if PreviousFiles(old(files)).None? || check then files == old(files)
                else OnlyRemoved(old(files), files,
                       Denoted(join, Difference(PreviousFiles(old(files)).value, Unique(expected))))
      ensures PreviousFiles(old(files)).Some? && !check && prune ==>
                (result.Done? <==> Prunable(join, marked, old(files),
                                            Difference(PreviousFiles(old(files)).value, Unique(expected))))
      ensures result.Done? && !prune ==> result.stale == []
    {
      var wanted := UniqueStrings(expected);
      var previous: seq<string> := [];
      if MANIFEST_PATH in files {
        match files[MANIFEST_PATH]
        case ManifestJson(m, _) =>
          if m.version != MANIFEST_VERSION {
            return ReconcileFailed;
          }
          previous := m.files;
        case _ =>
          return ReconcileFailed;
      }
      var stale := StaleEntries(previous, wanted);
      if check {
        DifferenceWithItself(wanted);
        if |stale| > 0 {
          return Stale(stale);
        }
        if MANIFEST_PATH !in files || files[MANIFEST_PATH] != Encoded(wanted) {
          return ManifestDrift;
        }
        return Done(stale);
      }
      if |stale| > 0 && !prune {
        return Stale(stale);
      }
      if prune {
        var ok := Prune(join, marked, stale);
        if !ok {
          return ReconcileFailed;
        }
      } else {
        assert Denoted(join, stale) == {};
      }
      files := files[MANIFEST_PATH := Encoded(wanted)];
      result := Done(stale);
    }
  }

  /** The removal happens: reconciling with pruning reports success and an expected file is gone. */
  method ReconcileRespelled(repo: Repository, join: string -> Option<string>, marked: Content -> bool)
    returns (result: ReconcileResult)
    requires repo.files == RESPELLED
    requires join("./a.go") == Some("a.go") && join("a.go") == Some("a.go")
    requires forall t :: Contains(t, MARKER) ==> marked(Bytes(t))
    modifies repo
    ensures result.Done? && "a.go" in Unique(["a.go"]) && "a.go" !in repo.files
  {
    PruningUnderAnotherSpelling(join, marked);
    result := repo.Reconcile(join, marked, ["a.go"], false, true);
  }

  lemma RegisteredSnoc(ms: seq<ModuleInfo>, i: nat, name: string)
    requires i < |ms|
    ensures Registered(ms[..i + 1], name) <==> Registered(ms[..i], name) || ms[i].name == name
  {
    var all, front := ms[..i + 1], ms[..i];
    assert all[i] == ms[i] && forall k :: 0 <= k < i ==> all[k] == front[k];
    if Registered(front, name) {
      var k :| 0 <= k < i && front[k].name == name;
      assert all[k].name == name;
    }
    if ms[i].name == name { assert all[i].name == name; }
  }

  /** The loop of `planRegistry`: replace the module's entry where it occurs, else append it; sort. */
  method RegisterModule(was: seq<ModuleInfo>, e: ModuleInfo) returns (modules: seq<ModuleInfo>)
    ensures modules == Upsert(was, e)
  {
    modules := was;
    var found := false;
    for i := 0 to |modules|
      invariant |modules| == |was|
      invariant forall k :: 0 <= k < i ==> modules[k] == if was[k].name == e.name then e else was[k]
      invariant forall k :: i <= k < |was| ==> modules[k] == was[k]
      invariant found <==> Registered(was[..i], e.name)
    {
      RegisteredSnoc(was, i, e.name);
      if modules[i].name == e.name {
        modules := modules[i := e];
        found := true;
      }
    }
    assert was[..|was|] == was;
    assert modules == Replace(was, e);
    if !found {
      assert Replace(was, e) == was;
      modules := modules + [e];
    }
    modules := Sort(NameLe, modules);
  }

  /** The loop of `difference`. */
  method StaleEntries(previous: seq<string>, wanted: seq<string>) returns (stale: seq<string>)
    ensures stale == Difference(previous, wanted)
  {
    stale := [];
    for i := 0 to |previous|
      invariant stale == NotIn(previous[..i], wanted)
    {
      assert previous[..i + 1][..i] == previous[..i];
      if previous[i] !in wanted {
        stale := stale + [previous[i]];
      }
    }
    assert previous[..|previous|] == previous;
    stale := Sort(StrLe, stale);
  }

  lemma DenotedSnoc(join: string -> Option<string>, entries: seq<string>, i: nat)
    requires i < |entries| && join(entries[i]).Some?
    ensures Denoted(join, entries[..i + 1]) == Denoted(join, entries[..i]) + {join(entries[i]).value}
  {
    var all := entries[..i + 1];
    assert forall k :: 0 <= k < i ==> all[k] == entries[..i][k];
    assert all[i] == entries[i];
    assert join(all[i]).value in Denoted(join, all);
    forall f | f in Denoted(join, entries[..i]) ensures f in Denoted(join, all) {
      var k :| 0 <= k < i && join(entries[..i][k]) == Some(f);
      assert join(all[k]) == Some(f);
    }
  }

  /** A check right after a successful reconciliation finds the manifest it expects. */
  lemma ReconciledPassesCheck(join: string -> Option<string>, files: Files, expected: seq<string>)
    requires PreviousFiles(files).Some?
    ensures var after := Reconciled(join, files, expected);
            && MANIFEST_PATH in after && after[MANIFEST_PATH] == Encoded(Unique(expected))
            && PreviousFiles(after) == Some(Unique(expected))
            && Difference(PreviousFiles(after).value, Unique(expected)) == []
            && Unique(Unique(expected)) == Unique(expected)
  {
    DifferenceWithItself(Unique(expected));
    UniqueTwice(expected);
  }
}
