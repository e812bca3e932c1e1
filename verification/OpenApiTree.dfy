/** The composer's procedures, on nodes whose content is edited in place. */
module OpenApiTree {
  import opened Options
  import opened Yaml
  import opened OpenApi

  /** Entries of a fragment's path that the generator wrote. */
  function OnlyGenerated(es: seq<Entry>): seq<Entry> {
    if es == [] then [] else (if Generated(es[0].value) then [es[0]] else []) + OnlyGenerated(es[1..])
  }

  /** Appending entries to one mapping, refusing a key it already has. */
  function AppendAll(acc: seq<Entry>, es: seq<Entry>): Option<seq<Entry>>
    decreases |es|
  {
    if es == [] then Some(acc)
    else if HasKey(acc, es[0].key.value) then None
    else AppendAll(acc + [es[0]], es[1..])
  }

  lemma {:induction false} OpsOfGenerated(path: Node, es: seq<Entry>)
    ensures OpsOfEntries(path, es) == OpsOfGroup(path, OnlyGenerated(es))
  {
    if es != [] {
      OpsOfGenerated(path, es[1..]);
      if Generated(es[0].value) { assert OnlyGenerated(es)[1..] == OnlyGenerated(es[1..]); }
      else { assert OnlyGenerated(es) == OnlyGenerated(es[1..]); }
    }
  }

  /** Merging one path's operations is appending to the item that has that name ... */
  lemma {:induction false} MergeIntoFound(s: Section, k: nat, path: Node, es: seq<Entry>)
    requires k == Find(s, path.value) < |s|
    ensures Merged(s, OpsOfGroup(path, es)) ==
            match AppendAll(s[k].entries, es)
            case None => None
            case Some(all) => Some(s[k := Group(s[k].key, all)])
    decreases |es|
  {
    var ops := OpsOfGroup(path, es);
    if es == [] {
      assert s[k := Group(s[k].key, s[k].entries)] == s;
    } else {
      var o := Op(path, es[0].key, es[0].value);
      assert ops[0] == o && ops[1..] == OpsOfGroup(path, es[1..]);
      if !HasKey(s[k].entries, o.key.value) {
        FindAfterUpdate(s, k, s[k].entries + [es[0]], path.value);
        var t := Place(s, o);
        assert t == s[k := Group(s[k].key, s[k].entries + [es[0]])];
        MergeIntoFound(t, k, path, es[1..]);
        var appended := AppendAll(s[k].entries, es);
        if appended.Some? {
          assert t[k := Group(t[k].key, appended.value)] == s[k := Group(s[k].key, appended.value)];
        }
      }
    }
  }

  /** ... or, when none has, to a new item that is kept only if something was appended. */
  lemma {:induction false} MergeIntoNew(s: Section, path: Node, es: seq<Entry>)
    requires Find(s, path.value) == |s|
    ensures Merged(s, OpsOfGroup(path, es)) ==
            match AppendAll([], es)
            case None => None
            case Some(all) => Some(if all == [] then s else s + [Group(path, all)])
  {
    if es != [] {
      var o := Op(path, es[0].key, es[0].value);
      var ops := OpsOfGroup(path, es);
      assert ops[0] == o && ops[1..] == OpsOfGroup(path, es[1..]);
      var t := s + [Group(path, [es[0]])];
      assert Place(s, o) == t;
      FindAfterAppend(s, Group(path, [es[0]]), path.value);
      MergeIntoFound(t, |s|, path, es[1..]);
      AppendAllGrows([es[0]], es[1..]);
      var all := AppendAll([es[0]], es[1..]);
      assert [] + [es[0]] == [es[0]];
      assert AppendAll([], es) == all;
      if all.Some? { assert t[|s| := Group(path, all.value)] == s + [Group(path, all.value)]; }
    }
  }

  lemma {:induction false} AppendAllGrows(acc: seq<Entry>, es: seq<Entry>)
    ensures AppendAll(acc, es).Some? ==> AppendAll(acc, es).value == acc + es
    decreases |es|
  {
    if es != [] {
      AppendAllGrows(acc + [es[0]], es[1..]);
      assert acc + [es[0]] + es[1..] == acc + es;
    }
  }

  lemma {:induction false} OpsOfConcat(a: Section, b: Section)
    ensures OpsOf(a + b) == OpsOf(a) + OpsOf(b)
  {
    if a == [] { assert a + b == b; }
    else {
      assert (a + b)[0] == a[0] && (a + b)[1..] == a[1..] + b;
      OpsOfConcat(a[1..], b);
    }
  }

  lemma MergedSnoc(s: Section, source: Section, i: nat)
    requires i < |source|
    ensures Merged(s, OpsOf(source[..i + 1])) ==
            match Merged(s, OpsOf(source[..i]))
            case None => None
            case Some(t) => Merged(t, OpsOfEntries(source[i].key, source[i].entries))
  {
    assert source[..i + 1] == source[..i] + [source[i]];
    OpsOfConcat(source[..i], [source[i]]);
    assert OpsOf([source[i]]) == OpsOfEntries(source[i].key, source[i].entries);
    MergedConcat(s, OpsOf(source[..i]), OpsOf([source[i]]));
  }

  lemma MergedStuck(s: Section, source: Section, i: nat)
    requires i <= |source| && Merged(s, OpsOf(source[..i])).None?
    ensures Merged(s, OpsOf(source)).None?
  {
    assert source == source[..i] + source[i..];
    OpsOfConcat(source[..i], source[i..]);
    MergedConcat(s, OpsOf(source[..i]), OpsOf(source[i..]));
  }

  lemma CleanedOne(g: Group)
    ensures Cleaned([g]) == if Kept(g.entries) == [] then [] else [Group(g.key, Kept(g.entries))]
  {
    assert [g][1..] == [];
  }

  lemma CleanStep(was: Section, i: nat)
    requires i < |was|
    ensures var before := was[..i + 1] + Cleaned(was[i + 1..]);
            before[..i] + Cleaned([before[i]]) + before[i + 1..] == was[..i] + Cleaned(was[i..])
  {
    var before := was[..i + 1] + Cleaned(was[i + 1..]);
    assert before[..i] == was[..i] && before[i] == was[i] && before[i + 1..] == Cleaned(was[i + 1..]);
    assert was[i..] == [was[i]] + was[i + 1..];
    CleanedConcat([was[i]], was[i + 1..]);
  }

  /** One round of a deletion from the back. */
  lemma RemovalStep(was: seq<Entry>, j: nat, now: seq<Entry>)
    requires j < |was| && now == was[..j + 1] + Kept(was[j + 1..])
    ensures j < |now| && now[j] == was[j]
    ensures (if Generated(was[j].value) then now[..j] + now[j + 1..] else now) == was[..j] + Kept(was[j..])
  {
    assert was[j..][0] == was[j] && was[j..][1..] == was[j + 1..];
    assert now[j + 1..] == Kept(was[j + 1..]) && now[..j] == was[..j];
    assert now == was[..j] + ([was[j]] + Kept(was[j + 1..]));
  }

  /** A path item or a component group: a mapping node whose content is edited in place. */
  class Item {
    var entries: seq<Entry>

    constructor ()
      ensures entries == []
    {
      entries := [];
    }

    /** The inner loop of `removeGeneratedOperations`: deletion from the back. */
    method RemoveGenerated()
      modifies this
      ensures entries == Kept(old(entries))
    {
      var j := |entries|;
      assert entries[j..] == [];
      while j > 0
        invariant 0 <= j <= |old(entries)|
        invariant entries == old(entries)[..j] + Kept(old(entries)[j..])
      {
        j := j - 1;
        RemovalStep(old(entries), j, entries);
        if Generated(entries[j].value) {
          entries := entries[..j] + entries[j + 1..];
        }
      }
    }

    method Has(key: string) returns (found: bool)
      ensures found <==> HasKey(entries, key)
    {
      for k := 0 to |entries|
        invariant forall i :: 0 <= i < k ==> entries[i].key.value != key
      {
        if entries[k].key.value == key {
          return true;
        }
      }
      return false;
    }

    /** The loop over one fragment path: append clones of its generated operations. */
    method AppendGenerated(es: seq<Entry>) returns (conflict: bool, added: bool)
      modifies this
      ensures conflict <==> AppendAll(old(entries), OnlyGenerated(es)).None?
      ensures !conflict ==> Some(entries) == AppendAll(old(entries), OnlyGenerated(es))
      ensures !conflict ==> (added <==> OnlyGenerated(es) != [])
    {
      added := false;
      for j := 0 to |es|
        invariant AppendAll(entries, OnlyGenerated(es[j..])) == AppendAll(old(entries), OnlyGenerated(es))
        invariant OnlyGenerated(es) != [] <==> added || OnlyGenerated(es[j..]) != []
      {
        assert es[j..] == [es[j]] + es[j + 1..];
        if !Generated(es[j].value) {
          assert OnlyGenerated(es[j..]) == OnlyGenerated(es[j + 1..]);
          continue;
        }
        var exists_ := Has(es[j].key.value);
        if exists_ {
          return true, added;
        }
        CloneIsCopy(es[j].key);
        CloneIsCopy(es[j].value);
        assert OnlyGenerated(es[j..])[0] == es[j] && OnlyGenerated(es[j..])[1..] == OnlyGenerated(es[j + 1..]);
        entries := entries + [Entry(Clone(es[j].key), Clone(es[j].value))];
        added := true;
      }
      conflict := false;
    }

    /** The loop over one component group: append clones of all its definitions. */
    method AppendDefinitions(es: seq<Entry>) returns (conflict: bool)
      modifies this
      ensures conflict <==> AppendAll(old(entries), es).None?
      ensures !conflict ==> Some(entries) == AppendAll(old(entries), es)
    {
      for j := 0 to |es|
        invariant AppendAll(entries, es[j..]) == AppendAll(old(entries), es)
      {
        assert es[j..] == [es[j]] + es[j + 1..];
        var exists_ := Has(es[j].key.value);
        if exists_ {
          return true;
        }
        CloneIsCopy(es[j].key);
        CloneIsCopy(es[j].value);
        entries := entries + [Entry(Clone(es[j].key), Clone(es[j].value))];
      }
      conflict := false;
    }
  }

  /** The `paths` node, or the `components` node, of a contract. */
  class Tree {
    var content: seq<(Node, Item)>

    /** No item is reachable under two keys. */
    ghost predicate Valid()
      reads this
    {
      forall i, j :: 0 <= i < j < |content| ==> content[i].1 != content[j].1
    }

    ghost function Items(): set<Item>
      reads this
    {
      set i | 0 <= i < |content| :: content[i].1
    }

    ghost function View(): (s: Section)
      reads this, Items()
      ensures |s| == |content|
      ensures forall i :: 0 <= i < |s| ==> s[i] == Group(content[i].0, content[i].1.entries)
    {
      seq(|content|, i requires 0 <= i < |content| reads this, Items() =>
        assert content[i].1 in Items(); Group(content[i].0, content[i].1.entries))
    }

    method Lookup(path: string) returns (k: nat)
      ensures k == Find(View(), path)
    {
      for i := 0 to |content|
        invariant forall j :: 0 <= j < i ==> content[j].0.value != path
      {
        if content[i].0.value == path {
          return i;
        }
      }
      return |content|;
    }

    /** Replacing one item's entries changes one group of the view and nothing else. */
    twostate lemma OneItemChanged(k: nat)
      requires old(Valid()) && k < |content| && content == old(content)
      requires forall i :: 0 <= i < |content| && i != k ==> content[i].1.entries == old(content[i].1.entries)
      ensures View() == old(View())[k := Group(content[k].0, content[k].1.entries)]
    {
    }

    /** One round of `removeGeneratedOperations`: empty a path of generated operations, then
        delete it if nothing is left. */
    method CleanPath(i: nat)
      requires Valid() && i < |content|
      modifies this, content[i].1
      ensures Valid() && Items() <= old(Items())
      ensures View() == old(View())[..i] + Cleaned([old(View())[i]]) + old(View())[i + 1..]
    {
      var item := content[i].1;
      ghost var was := View();
      item.RemoveGenerated();
      OneItemChanged(i);
      assert View() == was[..i] + [Group(was[i].key, Kept(was[i].entries))] + was[i + 1..];
      CleanedOne(was[i]);
      if |item.entries| == 0 {
        DeletePath(i);
      }
    }

    method DeletePath(i: nat)
      requires Valid() && i < |content|
      modifies this
      ensures Valid() && Items() <= old(Items())
      ensures View() == old(View())[..i] + old(View())[i + 1..]
    {
      ghost var was := View();
      content := content[..i] + content[i + 1..];
      assert forall k :: 0 <= k < |content| ==> content[k] == old(content)[if k < i then k else k + 1];
    }

    /** `removeGeneratedOperations`: backwards over the paths, deleting operations and then
        the paths left empty, is the order-preserving filter. */
    method RemoveGeneratedOperations()
      requires Valid()
      modifies this, Items()
      ensures Valid() && Items() <= old(Items())
      ensures View() == Cleaned(old(View()))
    {
      ghost var was := View();
      var i := |content|;
      assert was[i..] == [];
      while i > 0
        invariant 0 <= i <= |was| && i <= |content|
        invariant Valid() && Items() <= old(Items())
        invariant View() == was[..i] + Cleaned(was[i..])
      {
        i := i - 1;
        assert content[i].1 in Items();
        CleanStep(was, i);
        CleanPath(i);
      }
    }

    /** `mergeGeneratedPaths`: for each path of the fragment find or make the target item, append
        the generated operations, and attach a new item only if it received any. */
    method MergeGeneratedPaths(source: Section) returns (conflict: bool)
      requires Valid()
      modifies this, Items()
      ensures Valid() && fresh(Items() - old(Items()))
      ensures conflict <==> Merged(old(View()), OpsOf(source)).None?
      ensures !conflict ==> Some(View()) == Merged(old(View()), OpsOf(source))
    {
      ghost var was := View();
      for i := 0 to |source|
        invariant Valid() && fresh(Items() - old(Items()))
        invariant Merged(was, OpsOf(source[..i])) == Some(View())
      {
        MergedSnoc(was, source, i);
        OpsOfGenerated(source[i].key, source[i].entries);
        conflict := MergePath(source[i]);
        if conflict {
          MergedStuck(was, source, i + 1);
          return;
        }
      }
      assert source[..|source|] == source;
      conflict := false;
    }

    method MergeExisting(k: nat, g: Group) returns (conflict: bool)
      requires Valid() && k == Find(View(), g.key.value) < |content|
      modifies content[k].1
      ensures conflict <==> Merged(old(View()), OpsOfGroup(g.key, OnlyGenerated(g.entries))).None?
      ensures !conflict ==> Some(View()) == Merged(old(View()), OpsOfGroup(g.key, OnlyGenerated(g.entries)))
    {
      MergeIntoFound(View(), k, g.key, OnlyGenerated(g.entries));
      var added;
      conflict, added := content[k].1.AppendGenerated(g.entries);
      OneItemChanged(k);
    }

    method MergeNew(g: Group) returns (conflict: bool)
      requires Valid() && Find(View(), g.key.value) == |content|
      modifies this
      ensures Valid() && fresh(Items() - old(Items()))
      ensures conflict <==> Merged(old(View()), OpsOfGroup(g.key, OnlyGenerated(g.entries))).None?
      ensures !conflict ==> Some(View()) == Merged(old(View()), OpsOfGroup(g.key, OnlyGenerated(g.entries)))
    {
      ghost var was := View();
      ghost var new_ := OnlyGenerated(g.entries);
      var item := new Item();
      var added;
      conflict, added := item.AppendGenerated(g.entries);
      assert View() == was;
      if !conflict && added {
        CloneIsCopy(g.key);
        Attach(Clone(g.key), item);
      }
      MergeIntoNew(was, g.key, new_);
      AppendAllGrows([], new_);
    }

    method Attach(key: Node, item: Item)
      requires Valid() && item !in Items()
      modifies this
      ensures Valid() && content == old(content) + [(key, item)] && Items() == old(Items()) + {item}
      ensures View() == old(View()) + [Group(key, item.entries)]
    {
      ghost var was := content;
      content := content + [(key, item)];
      forall i | 0 <= i < |was| ensures content[i] == was[i] && was[i].1 in Items() && was[i].1 in old(Items()) {
        assert content[i].1 == was[i].1;
      }
      assert content[|was|].1 == item;
    }

    /** One round of that loop. */
    method MergePath(g: Group) returns (conflict: bool)
      requires Valid()
      modifies this, Items()
      ensures Valid() && fresh(Items() - old(Items()))
      ensures conflict <==> Merged(old(View()), OpsOfGroup(g.key, OnlyGenerated(g.entries))).None?
      ensures !conflict ==> Some(View()) == Merged(old(View()), OpsOfGroup(g.key, OnlyGenerated(g.entries)))
    {
      var k := Lookup(g.key.value);
      if k < |content| {
        assert content[k].1 in Items();
        conflict := MergeExisting(k, g);
      } else {
        conflict := MergeNew(g);
      }
    }

    /** `mergeGeneratedComponents`: a missing group is attached before its definitions are read. */
    method MergeGeneratedComponents(source: Section) returns (conflict: bool)
      requires Valid()
      modifies this, Items()
      ensures Valid() && fresh(Items() - old(Items()))
      ensures conflict <==> MergedComponents(old(View()), source).None?
      ensures !conflict ==> Some(View()) == MergedComponents(old(View()), source)
    {
      ghost var was := View();
      for i := 0 to |source|
        invariant Valid() && fresh(Items() - old(Items()))
        invariant MergedComponents(was, source) == MergedComponents(View(), source[i..])
      {
        assert source[i..][0] == source[i] && source[i..][1..] == source[i + 1..];
        conflict := MergeGroup(source[i]);
        if conflict {
          return;
        }
      }
      conflict := false;
    }

    method MergeGroup(g: Group) returns (conflict: bool)
      requires Valid()
      modifies this, Items()
      ensures Valid() && fresh(Items() - old(Items()))
      ensures conflict <==> Merged(WithGroup(old(View()), g.key), OpsOfGroup(g.key, g.entries)).None?
      ensures !conflict ==> Some(View()) == Merged(WithGroup(old(View()), g.key), OpsOfGroup(g.key, g.entries))
    {
      ghost var was := View();
      var k := Lookup(g.key.value);
      if k == |content| {
        var item := new Item();
        CloneIsCopy(g.key);
        Attach(Clone(g.key), item);
        FindAfterAppend(was, Group(g.key, []), g.key.value);
      }
      assert View() == WithGroup(was, g.key);
      conflict := MergeDefinitions(k, g);
    }

    method MergeDefinitions(k: nat, g: Group) returns (conflict: bool)
      requires Valid() && k == Find(View(), g.key.value) < |content|
      modifies content[k].1
      ensures conflict <==> Merged(old(View()), OpsOfGroup(g.key, g.entries)).None?
      ensures !conflict ==> Some(View()) == Merged(old(View()), OpsOfGroup(g.key, g.entries))
    {
      MergeIntoFound(View(), k, g.key, g.entries);
      conflict := content[k].1.AppendDefinitions(g.entries);
      OneItemChanged(k);
    }

    /** The mapping as a value. */
    method Read() returns (s: Section)
      ensures s == View()
    {
      s := [];
      for i := 0 to |content|
        invariant |s| == i && forall j :: 0 <= j < i ==> s[j] == Group(content[j].0, content[j].1.entries)
      {
        s := s + [Group(content[i].0, content[i].1.entries)];
      }
    }
  }

  // ---------------------------------------------------------------- operation ids

  function AllEntries(s: Section): seq<Entry> {
    if s == [] then [] else s[0].entries + AllEntries(s[1..])
  }

  function OperationId(e: Entry): string { ScalarMappingValue(e.value, "operationId") }

  /** The Operation Object rule: an operationId, where given, is unique in the whole contract. */
  ghost predicate UniqueIds(es: seq<Entry>) {
    forall i, j :: 0 <= i < j < |es| && OperationId(es[i]) != "" ==> OperationId(es[i]) != OperationId(es[j])
  }

  lemma {:induction false} AllEntriesConcat(a: Section, b: Section)
    ensures AllEntries(a + b) == AllEntries(a) + AllEntries(b)
  {
    if a == [] { assert a + b == b; }
    else {
      assert (a + b)[0] == a[0] && (a + b)[1..] == a[1..] + b;
      AllEntriesConcat(a[1..], b);
    }
  }

  ghost function Ids(es: seq<Entry>): set<string> {
    set i | 0 <= i < |es| && OperationId(es[i]) != "" :: OperationId(es[i])
  }

  lemma UniqueIdsSnoc(es: seq<Entry>, e: Entry)
    requires UniqueIds(es)
    ensures UniqueIds(es + [e]) <==> OperationId(e) !in Ids(es)
    ensures Ids(es + [e]) == Ids(es) + (if OperationId(e) == "" then {} else {OperationId(e)})
  {
    var all := es + [e];
    assert all[|es|] == e && forall k :: 0 <= k < |es| ==> all[k] == es[k];
    if OperationId(e) in Ids(es) {
      var i :| 0 <= i < |es| && OperationId(es[i]) != "" && OperationId(es[i]) == OperationId(e);
      assert OperationId(all[i]) == OperationId(all[|es|]);
    }
    forall id | id in Ids(es) ensures id in Ids(all) {
      var i :| 0 <= i < |es| && OperationId(es[i]) != "" && OperationId(es[i]) == id;
      assert OperationId(all[i]) == id;
    }
    assert OperationId(e) != "" ==> OperationId(all[|es|]) in Ids(all);
  }

  lemma UniqueIdsPrefix(a: seq<Entry>, b: seq<Entry>)
    requires UniqueIds(a + b)
    ensures UniqueIds(a)
  {
    assert forall k :: 0 <= k < |a| ==> (a + b)[k] == a[k];
  }

  lemma AllEntriesSnoc(s: Section, i: nat)
    requires i < |s|
    ensures AllEntries(s[..i + 1]) == AllEntries(s[..i]) + s[i].entries
  {
    assert s[..i + 1] == s[..i] + [s[i]];
    AllEntriesConcat(s[..i], [s[i]]);
    assert AllEntries([s[i]]) == s[i].entries;
  }

  lemma DuplicateStays(s: Section, i: nat)
    requires i <= |s| && !UniqueIds(AllEntries(s[..i]))
    ensures !UniqueIds(AllEntries(s))
  {
    assert s == s[..i] + s[i..];
    AllEntriesConcat(s[..i], s[i..]);
    if UniqueIds(AllEntries(s)) { UniqueIdsPrefix(AllEntries(s[..i]), AllEntries(s[i..])); }
  }

  /** The inner loop: the operations of one path, given those walked before. */
  method ValidateItem(es: seq<Entry>, seen: set<string>, ghost walked: seq<Entry>)
    returns (duplicate: Option<string>, seen': set<string>)
    requires UniqueIds(walked) && seen == Ids(walked)
    ensures duplicate.None? <==> UniqueIds(walked + es)
    ensures duplicate.None? ==> seen' == Ids(walked + es)
    ensures duplicate.Some? ==> duplicate.value != "" && exists e :: e in es && OperationId(e) == duplicate.value
  {
    seen' := seen;
    assert walked + es[..0] == walked;
    for j := 0 to |es|
      invariant UniqueIds(walked + es[..j]) && seen' == Ids(walked + es[..j])
    {
      var e := es[j];
      var id := OperationId(e);
      UniqueIdsSnoc(walked + es[..j], e);
      assert walked + es[..j + 1] == walked + es[..j] + [e];
      if id == "" {
        continue;
      }
      if id in seen' {
        assert walked + es == (walked + es[..j + 1]) + es[j + 1..];
        if UniqueIds(walked + es) { UniqueIdsPrefix(walked + es[..j + 1], es[j + 1..]); }
        return Some(id), seen';
      }
      seen' := seen' + {id};
    }
    assert es[..|es|] == es;
    duplicate := None;
  }

  /** `validateOperationIDs` accepts exactly the contracts whose operationIds are unique. */
  method ValidateOperationIds(s: Section) returns (duplicate: Option<string>)
    ensures duplicate.None? <==> UniqueIds(AllEntries(s))
  {
    var seen: set<string> := {};
    for i := 0 to |s|
      invariant UniqueIds(AllEntries(s[..i])) && seen == Ids(AllEntries(s[..i]))
    {
      AllEntriesSnoc(s, i);
      duplicate, seen := ValidateItem(s[i].entries, seen, AllEntries(s[..i]));
      if duplicate.Some? {
        DuplicateStays(s, i + 1);
        return;
      }
    }
    assert s[..|s|] == s;
    duplicate := None;
  }
}
