/** The composition loop of `GenerateOpenAPI` as a whole: paths cleaned, then the paths and the
    components of each module merged in turn, then the operationIds checked. */
module OpenApiContract {
  import opened Options
  import opened OpenApi
  import opened OpenApiTree

  /** What a module's fragment brings. */
  datatype Fragment = Fragment(paths: Section, components: Section)

  function PathsOf(fs: seq<Fragment>): (r: seq<Section>)
    ensures |r| == |fs| && forall i :: 0 <= i < |fs| ==> r[i] == fs[i].paths
  {
    seq(|fs|, i requires 0 <= i < |fs| => fs[i].paths)
  }

  function ComponentsOf(fs: seq<Fragment>): Section {
    if fs == [] then [] else fs[0].components + ComponentsOf(fs[1..])
  }

  /** The components after merging those of all fragments, in order. */
  function AllComponents(base: Section, fs: seq<Fragment>): Option<Section> { MergedComponents(base, ComponentsOf(fs)) }

  lemma {:induction false} ComponentsConcat(s: Section, a: Section, b: Section)
    ensures MergedComponents(s, a + b) ==
      match MergedComponents(s, a) case None => None case Some(t) => MergedComponents(t, b)
    decreases |a|
  {
    if a == [] {
      assert a + b == b;
    } else {
      assert (a + b)[0] == a[0] && (a + b)[1..] == a[1..] + b;
      match Merged(WithGroup(s, a[0].key), OpsOfGroup(a[0].key, a[0].entries))
      case None =>
      case Some(t) => ComponentsConcat(t, a[1..], b);
    }
  }

  lemma PathsTail(fs: seq<Fragment>, i: nat)
    requires i < |fs|
    ensures AllOps(PathsOf(fs[i..])) == OpsOf(fs[i].paths) + AllOps(PathsOf(fs[i + 1..]))
  {
    assert PathsOf(fs[i..])[0] == fs[i].paths;
    assert PathsOf(fs[i..])[1..] == PathsOf(fs[i + 1..]);
  }

  lemma ComponentsTail(fs: seq<Fragment>, i: nat)
    requires i < |fs|
    ensures ComponentsOf(fs[i..]) == fs[i].components + ComponentsOf(fs[i + 1..])
  {
    assert fs[i..][0] == fs[i] && fs[i..][1..] == fs[i + 1..];
  }

  /** What one composition computes, or nothing when it is refused. */
  ghost function Contract(paths: Section, components: Section, fs: seq<Fragment>): Option<(Section, Section)> {
    var p, c := Composed(paths, PathsOf(fs)), AllComponents(components, fs);
    if p.None? || c.None? || !UniqueIds(AllEntries(p.value)) then None else Some((p.value, c.value))
  }

  class Composer {
    const paths: Tree
    const components: Tree

    constructor (paths: Tree, components: Tree)
      ensures this.paths == paths && this.components == components
    {
      this.paths, this.components := paths, components;
    }

    /** The two mappings share no node. */
    ghost predicate Valid()
      reads this, paths, components
    {
      paths != components && paths.Valid() && components.Valid() && paths.Items() !! components.Items()
    }

    /** One round: the paths of a fragment, then its components. */
    method MergeFragment(f: Fragment) returns (conflict: bool)
      requires Valid()
      modifies paths, paths.Items(), components, components.Items()
      ensures Valid() && fresh(paths.Items() - old(paths.Items()))
          && fresh(components.Items() - old(components.Items()))
      ensures conflict <==> Merged(old(paths.View()), OpsOf(f.paths)).None?
                            || MergedComponents(old(components.View()), f.components).None?
      ensures !conflict ==> Some(paths.View()) == Merged(old(paths.View()), OpsOf(f.paths))
      ensures !conflict ==> Some(components.View()) == MergedComponents(old(components.View()), f.components)
    {
      conflict := paths.MergeGeneratedPaths(f.paths);
      if conflict {
        return;
      }
      ghost var merged := paths.View();
      assert components.View() == old(components.View());
      conflict := components.MergeGeneratedComponents(f.components);
      assert paths.View() == merged;
    }

    /** The loop over the modules. */
    method MergeAll(fs: seq<Fragment>) returns (conflict: bool)
      requires Valid()
      modifies paths, paths.Items(), components, components.Items()
      ensures Valid()
      ensures conflict <==> Merged(old(paths.View()), AllOps(PathsOf(fs))).None?
                            || AllComponents(old(components.View()), fs).None?
      ensures !conflict ==> Some(paths.View()) == Merged(old(paths.View()), AllOps(PathsOf(fs)))
      ensures !conflict ==> Some(components.View()) == AllComponents(old(components.View()), fs)
    {
      ghost var p, c := Merged(paths.View(), AllOps(PathsOf(fs))), AllComponents(components.View(), fs);
      assert fs[0..] == fs;
      for i := 0 to |fs|
        invariant Valid() && fresh(paths.Items() - old(paths.Items()))
            && fresh(components.Items() - old(components.Items()))
        invariant p == Merged(paths.View(), AllOps(PathsOf(fs[i..])))
        invariant c == MergedComponents(components.View(), ComponentsOf(fs[i..]))
      {
        Round(paths.View(), components.View(), fs, i);
        conflict := MergeFragment(fs[i]);
        if conflict {
          return;
        }
      }
      conflict := false;
    }

    /** The paths cleaned, then everything merged. */
    method CleanAndMerge(fs: seq<Fragment>) returns (conflict: bool)
      requires Valid()
      modifies paths, paths.Items(), components, components.Items()
      ensures Valid()
      ensures conflict <==> Composed(old(paths.View()), PathsOf(fs)).None?
                            || AllComponents(old(components.View()), fs).None?
      ensures !conflict ==> Some(paths.View()) == Composed(old(paths.View()), PathsOf(fs))
      ensures !conflict ==> Some(components.View()) == AllComponents(old(components.View()), fs)
    {
      ghost var was, base := paths.View(), components.View();
      ComposedIs(was, PathsOf(fs));
      paths.RemoveGeneratedOperations();
      assert components.View() == base;
      conflict := MergeAll(fs);
    }

    /** `GenerateOpenAPI` up to the encoding of its result. */
    method Compose(fs: seq<Fragment>) returns (ok: bool)
      requires Valid()
      modifies paths, paths.Items(), components, components.Items()
      ensures Valid()
      ensures ok <==> Contract(old(paths.View()), old(components.View()), fs).Some?
      ensures ok ==> Contract(old(paths.View()), old(components.View()), fs) == Some((paths.View(), components.View()))
    {
      ghost var was, base := paths.View(), components.View();
      var conflict := CleanAndMerge(fs);
      if conflict {
        ContractRefused(was, base, fs);
        return false;
      }
      var s := paths.Read();
      ContractIs(was, base, fs, s, components.View());
      var duplicate := ValidateOperationIds(s);
      ok := duplicate.None?;
    }
  }

  lemma ComposedIs(paths: Section, fragments: seq<Section>)
    ensures Composed(paths, fragments) == Merged(Cleaned(paths), AllOps(fragments))
  {
  }

  lemma ContractRefused(paths: Section, components: Section, fs: seq<Fragment>)
    requires Composed(paths, PathsOf(fs)).None? || AllComponents(components, fs).None?
    ensures Contract(paths, components, fs).None?
  {
  }

  lemma ContractIs(paths: Section, components: Section, fs: seq<Fragment>, p: Section, c: Section)
    requires Composed(paths, PathsOf(fs)) == Some(p) && AllComponents(components, fs) == Some(c)
    ensures Contract(paths, components, fs) == if UniqueIds(AllEntries(p)) then Some((p, c)) else None
  {
  }

  /** One round of the loop, on values. */
  lemma Round(paths: Section, components: Section, fs: seq<Fragment>, i: nat)
    requires i < |fs|
    ensures Merged(paths, AllOps(PathsOf(fs[i..]))) ==
      match Merged(paths, OpsOf(fs[i].paths)) case None => None case Some(t) => Merged(t, AllOps(PathsOf(fs[i + 1..])))
    ensures MergedComponents(components, ComponentsOf(fs[i..])) ==
      match MergedComponents(components, fs[i].components)
      case None => None
      case Some(t) => MergedComponents(t, ComponentsOf(fs[i + 1..]))
  {
    PathsTail(fs, i);
    ComponentsTail(fs, i);
    MergedConcat(paths, OpsOf(fs[i].paths), AllOps(PathsOf(fs[i + 1..])));
    ComponentsConcat(components, fs[i].components, ComponentsOf(fs[i + 1..]));
  }

  /** The composed contract holds no operationId twice, keeps the hand-written operations, and its
      paths reproduce themselves; its components do not, unless no fragment declares any. */
  lemma ContractProperties(paths: Section, components: Section, fs: seq<Fragment>)
    requires Contract(paths, components, fs).Some?
    ensures var r := Contract(paths, components, fs).value;
      && UniqueIds(AllEntries(r.0)) && Cleaned(r.0) == Cleaned(paths) && Composed(r.0, PathsOf(fs)) == Some(r.0)
      && (Contract(r.0, components, fs) == Some(r))
      && (Contract(r.0, r.1, fs).Some? <==> ComponentOps(ComponentsOf(fs)) == [])
  {
    CompositionIsFixedPoint(paths, PathsOf(fs));
    ComponentsDoNotRemerge(components, ComponentsOf(fs));
  }
}
