/** Generating a module from an accepted schema, and the check that follows. */
module GenerationCheck {
  import opened Options
  import opened SchemaTypes
  import opened Text
  import opened Normalizers
  import opened NormalEntities
  import opened Normalize
  import opened GeneratedFiles
  import opened PlannedPaths

  function TablesOf(es: seq<Entity>): (r: seq<string>)
    ensures |r| == |es| && forall i :: 0 <= i < |es| ==> r[i] == es[i].table
  {
    seq(|es|, i requires 0 <= i < |es| => es[i].table)
  }

  /** What an accepted schema guarantees about the names that go into paths. */
  lemma AcceptedNames(s: Schema)
    requires NormSchema(s).Some?
    ensures var n := NormSchema(s).value;
      PackageName(n.module_) && (n.version == 2 ==> Valid(TablesOf(n.entities)))
  {
    var t := s.(module_ := Trim(s.module_));
    if s.version == 2 {
      var es := NormEntities(t.entities).value;
      NormEntitiesSettles(t.entities);
      AcceptedTables(es);
    }
  }

  lemma AcceptedTables(es: seq<Entity>)
    requires NormalEntities.NormalEntities(es)
    ensures Valid(TablesOf(es))
  {
    forall i | 0 <= i < |es| ensures TableName(TablesOf(es)[i]) {
      assert NormEntity(es[i]) == Some(es[i]);
      assert EntityOk(es[i]);
    }
  }

  /** The renderer makes, for any registry, a plan of the schema's module; the registry comes last. */
  ghost predicate Renders(render: Registry -> seq<OutputFile>, n: Schema) {
    forall r :: IsPlanOf(render(r) + [RegistryFile(r)], n.version, n.module_, TablesOf(n.entities))
  }

  /** For every accepted schema: a check right after a generation makes the same plan, and finds no
      difference if and only if the schema is not one of version 2 with a table "repository" whose
      file has another content than the repository interface; then a second generation changes nothing. */
  lemma CheckAfterGenerateIff(s: Schema, files: Files, e: ModuleInfo, render: Registry -> seq<OutputFile>)
    requires NormSchema(s).Some? && Renders(render, NormSchema(s).value)
    requires Planned(files, e, render).Some? && UniqueRegistry(files)
    ensures var n, plan := NormSchema(s).value, Planned(files, e, render).value;
      var after, overwritten := WriteAll(files, plan), Overwritten(plan, n.version, TablesOf(n.entities));
      && Planned(after, e, render) == Some(plan)
      && ((forall i :: 0 <= i < |plan| ==> !Differs(after, plan[i])) <==> !overwritten)
      && (!overwritten ==> WriteAll(after, plan) == after)
  {
    var n, plan := NormSchema(s).value, Planned(files, e, render).value;
    var tables := TablesOf(n.entities);
    AcceptedNames(s);
    PlanIsConsistentIff(plan, n.version, n.module_, tables);
    PlanIsStable(files, e, render);
    if Overwritten(plan, n.version, tables) {
      var t :| 0 <= t < |tables| && tables[t] == "repository" && plan[t].content != plan[|tables|].content;
      RepositoryTableDrifts(files, plan, n.module_, tables, t);
    } else {
      GenerationIsFixedPoint(files, e, render);
    }
  }
}
