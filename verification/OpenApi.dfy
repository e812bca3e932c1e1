/** The OpenAPI composer: generated operations are removed from the base contract and the
    operations of every module fragment are merged in, both by editing node content in place. */
module OpenApi {
  import opened Options
  import opened Yaml

  datatype Entry = Entry(key: Node, value: Node)

  /** A two-level mapping as a value: paths over methods, or component groups over names. */
  datatype Group = Group(key: Node, entries: seq<Entry>)
  type Section = seq<Group>

  /** One operation of a fragment together with where it belongs. */
  datatype Op = Op(path: Node, key: Node, value: Node)

  // ---------------------------------------------------------------- cleaning

  function Kept(es: seq<Entry>): seq<Entry> {
    if es == [] then []
    else (if Generated(es[0].value) then [] else [es[0]]) + Kept(es[1..])
  }

  /** The order-preserving filter: hand-written operations, and the paths that have any. */
  function Cleaned(s: Section): Section {
    if s == [] then []
    else var kept := Kept(s[0].entries);
         (if kept == [] then [] else [Group(s[0].key, kept)]) + Cleaned(s[1..])
  }

  lemma {:induction false} KeptConcat(a: seq<Entry>, b: seq<Entry>)
    ensures Kept(a + b) == Kept(a) + Kept(b)
  {
    if a == [] { assert a + b == b; }
    else {
      assert (a + b)[1..] == a[1..] + b;
      KeptConcat(a[1..], b);
    }
  }

  lemma {:induction false} CleanedConcat(a: Section, b: Section)
    ensures Cleaned(a + b) == Cleaned(a) + Cleaned(b)
  {
    if a == [] { assert a + b == b; }
    else {
      assert (a + b)[1..] == a[1..] + b;
      CleanedConcat(a[1..], b);
    }
  }

  lemma {:induction false} KeptTwice(es: seq<Entry>)
    ensures Kept(Kept(es)) == Kept(es)
  {
    if es != [] {
      KeptTwice(es[1..]);
      var head := if Generated(es[0].value) then [] else [es[0]];
      KeptConcat(head, Kept(es[1..]));
    }
  }

  /** A contract with no generated operation and no empty path. */
  ghost predicate IsClean(s: Section) {
    forall i :: 0 <= i < |s| ==> s[i].entries != [] && Kept(s[i].entries) == s[i].entries
  }

  lemma {:induction false} CleanedIsClean(s: Section)
    ensures IsClean(Cleaned(s))
  {
    if s != [] {
      CleanedIsClean(s[1..]);
      KeptTwice(s[0].entries);
    }
  }

  lemma {:induction false} CleanIsFixed(s: Section)
    requires IsClean(s)
    ensures Cleaned(s) == s
  {
    if s != [] {
      CleanIsFixed(s[1..]);
      assert s == [s[0]] + s[1..];
    }
  }

  // ---------------------------------------------------------------- merging

  /** The generated operations of one path of a fragment, in order. */
  function OpsOfEntries(path: Node, es: seq<Entry>): seq<Op> {
    if es == [] then []
    else (if Generated(es[0].value) then [Op(path, es[0].key, es[0].value)] else [])
         + OpsOfEntries(path, es[1..])
  }

  function OpsOf(fragment: Section): seq<Op> {
    if fragment == [] then [] else OpsOfEntries(fragment[0].key, fragment[0].entries) + OpsOf(fragment[1..])
  }

  function AllOps(fragments: seq<Section>): seq<Op> {
    if fragments == [] then [] else OpsOf(fragments[0]) + AllOps(fragments[1..])
  }

  /** Position of the first path with this name, or the number of paths. */
  function Find(s: Section, path: string): (i: nat)
    ensures i <= |s|
    ensures i < |s| ==> s[i].key.value == path
    ensures forall j :: 0 <= j < i ==> s[j].key.value != path
  {
    if s == [] then 0 else if s[0].key.value == path then 0 else 1 + Find(s[1..], path)
  }

  predicate HasKey(es: seq<Entry>, key: string) {
    exists k :: 0 <= k < |es| && es[k].key.value == key
  }

  predicate Collides(s: Section, o: Op) {
    var i := Find(s, o.path.value);
    i < |s| && HasKey(s[i].entries, o.key.value)
  }

  /** Where one more operation goes: to the end of its path, or to a new last path. */
  function Place(s: Section, o: Op): Section {
    var i := Find(s, o.path.value);
    if i < |s| then s[i := Group(s[i].key, s[i].entries + [Entry(o.key, o.value)])]
    else s + [Group(o.path, [Entry(o.key, o.value)])]
  }

  function Merged(s: Section, ops: seq<Op>): Option<Section>
    decreases |ops|
  {
    if ops == [] then Some(s)
    else if Collides(s, ops[0]) then None
    else Merged(Place(s, ops[0]), ops[1..])
  }

  lemma {:induction false} MergedConcat(s: Section, a: seq<Op>, b: seq<Op>)
    ensures Merged(s, a + b) == match Merged(s, a) case None => None case Some(t) => Merged(t, b)
    decreases |a|
  {
    if a == [] { assert a + b == b; }
    else {
      assert (a + b)[0] == a[0] && (a + b)[1..] == a[1..] + b;
      if !Collides(s, a[0]) { MergedConcat(Place(s, a[0]), a[1..], b); }
    }
  }

  // ------------------------------------------------- what merging means, path by path

  /** Every entry stored under a path name, whichever node holds it. */
  function EntriesAt(s: Section, path: string): seq<Entry> {
    var i := Find(s, path);
    if i < |s| then s[i].entries else []
  }

  function EntriesFor(ops: seq<Op>, path: string): seq<Entry> {
    if ops == [] then []
    else (if ops[0].path.value == path then [Entry(ops[0].key, ops[0].value)] else [])
         + EntriesFor(ops[1..], path)
  }

  function PathNames(s: Section): seq<string> { seq(|s|, i requires 0 <= i < |s| => s[i].key.value) }

  /** Paths an operation list introduces, in order of first appearance. */
  function NewPaths(known: seq<string>, ops: seq<Op>): seq<string>
    decreases |ops|
  {
    if ops == [] then []
    else if ops[0].path.value in known then NewPaths(known, ops[1..])
    else [ops[0].path.value] + NewPaths(known + [ops[0].path.value], ops[1..])
  }

  lemma FindInNames(s: Section, path: string)
    ensures path in PathNames(s) <==> Find(s, path) < |s|
  {
    if path in PathNames(s) {
      var k :| 0 <= k < |s| && PathNames(s)[k] == path;
    }
    if Find(s, path) < |s| { assert PathNames(s)[Find(s, path)] == path; }
  }

  lemma {:induction false} FindAfterAppend(s: Section, g: Group, path: string)
    ensures Find(s + [g], path) ==
            if Find(s, path) < |s| then Find(s, path) else if g.key.value == path then |s| else |s| + 1
  {
    var i, j := Find(s, path), Find(s + [g], path);
    assert forall k :: 0 <= k < |s| ==> (s + [g])[k] == s[k];
    assert (s + [g])[|s|] == g;
  }

  lemma FindAfterUpdate(s: Section, i: nat, es: seq<Entry>, path: string)
    requires i < |s|
    ensures Find(s[i := Group(s[i].key, es)], path) == Find(s, path)
  {
    var t := s[i := Group(s[i].key, es)];
    assert forall k :: 0 <= k < |s| ==> t[k].key == s[k].key;
  }

  lemma EntriesAfterPlace(s: Section, o: Op, path: string)
    ensures EntriesAt(Place(s, o), path) ==
            EntriesAt(s, path) + (if o.path.value == path then [Entry(o.key, o.value)] else [])
  {
    var i := Find(s, o.path.value);
    if i < |s| { FindAfterUpdate(s, i, s[i].entries + [Entry(o.key, o.value)], path); }
    else { FindAfterAppend(s, Group(o.path, [Entry(o.key, o.value)]), path); }
  }

  lemma NamesAfterPlace(s: Section, o: Op)
    ensures PathNames(Place(s, o)) ==
            if o.path.value in PathNames(s) then PathNames(s) else PathNames(s) + [o.path.value]
  {
    FindInNames(s, o.path.value);
  }

  /** Merging adds to each path exactly the operations addressed to it, after what it already
      holds and in order ... */
  lemma {:induction false} MergedContents(s: Section, ops: seq<Op>, path: string)
    requires Merged(s, ops).Some?
    ensures EntriesAt(Merged(s, ops).value, path) == EntriesAt(s, path) + EntriesFor(ops, path)
    decreases |ops|
  {
    if ops != [] {
      EntriesAfterPlace(s, ops[0], path);
      MergedContents(Place(s, ops[0]), ops[1..], path);
    }
  }

  /** ... and lists new paths by first appearance, which together fix the result. */
  lemma {:induction false} MergedNames(s: Section, ops: seq<Op>)
    requires Merged(s, ops).Some?
    ensures PathNames(Merged(s, ops).value) == PathNames(s) + NewPaths(PathNames(s), ops)
    decreases |ops|
  {
    if ops != [] {
      NamesAfterPlace(s, ops[0]);
      MergedNames(Place(s, ops[0]), ops[1..]);
    }
  }

  // ------------------------------------------------- merging succeeds exactly without collisions

  ghost predicate SameKey(a: Op, b: Op) { a.path.value == b.path.value && a.key.value == b.key.value }

  /** No operation has the path and method of a base entry or of another operation. */
  ghost predicate NoCollision(s: Section, ops: seq<Op>) {
    && (forall i :: 0 <= i < |ops| ==> !HasKey(EntriesAt(s, ops[i].path.value), ops[i].key.value))
    && (forall i, j :: 0 <= i < j < |ops| ==> !SameKey(ops[i], ops[j]))
  }

  lemma HasKeyConcat(a: seq<Entry>, e: Entry, key: string)
    ensures HasKey(a + [e], key) <==> HasKey(a, key) || e.key.value == key
  {
    assert (a + [e])[|a|] == e;
    if HasKey(a, key) {
      var k :| 0 <= k < |a| && a[k].key.value == key;
      assert (a + [e])[k] == a[k];
    }
  }

  lemma KeyAfterPlace(s: Section, o: Op, p: Op)
    ensures HasKey(EntriesAt(Place(s, o), p.path.value), p.key.value)
            <==> HasKey(EntriesAt(s, p.path.value), p.key.value) || SameKey(o, p)
  {
    EntriesAfterPlace(s, o, p.path.value);
    HasKeyConcat(EntriesAt(s, p.path.value), Entry(o.key, o.value), p.key.value);
    assert EntriesAt(s, p.path.value) + [] == EntriesAt(s, p.path.value);
  }

  lemma {:induction false} MergeSucceedsIff(s: Section, ops: seq<Op>)
    ensures Merged(s, ops).Some? <==> NoCollision(s, ops)
    decreases |ops|
  {
    if ops != [] {
      var o, rest := ops[0], ops[1..];
      assert forall i :: 0 <= i < |rest| ==> rest[i] == ops[i + 1];
      if Collides(s, o) {
        assert HasKey(EntriesAt(s, ops[0].path.value), ops[0].key.value);
      } else {
        var t := Place(s, o);
        MergeSucceedsIff(t, rest);
        forall i | 0 <= i < |rest|
          ensures HasKey(EntriesAt(t, rest[i].path.value), rest[i].key.value)
                  <==> HasKey(EntriesAt(s, ops[i + 1].path.value), ops[i + 1].key.value) || SameKey(o, ops[i + 1])
        {
          KeyAfterPlace(s, o, rest[i]);
        }
        SplitCollision(s, t, ops);
      }
    }
  }

  lemma SplitCollision(s: Section, t: Section, ops: seq<Op>)
    requires ops != [] && !HasKey(EntriesAt(s, ops[0].path.value), ops[0].key.value)
    requires forall i :: 0 <= i < |ops[1..]| ==>
      (HasKey(EntriesAt(t, ops[1..][i].path.value), ops[1..][i].key.value)
       <==> HasKey(EntriesAt(s, ops[i + 1].path.value), ops[i + 1].key.value) || SameKey(ops[0], ops[i + 1]))
    ensures NoCollision(t, ops[1..]) <==> NoCollision(s, ops)
  {
    var rest := ops[1..];
    assert forall i :: 0 < i < |ops| ==> ops[i] == rest[i - 1];
    if NoCollision(t, rest) {
      forall i | 0 <= i < |ops| ensures !HasKey(EntriesAt(s, ops[i].path.value), ops[i].key.value) {
        if i > 0 { assert ops[i] == rest[i - 1]; }
      }
      forall i, j | 0 <= i < j < |ops| ensures !SameKey(ops[i], ops[j]) {
        assert ops[j] == rest[j - 1];
        if i > 0 { assert ops[i] == rest[i - 1]; }
      }
    }
    if NoCollision(s, ops) {
      forall i | 0 <= i < |rest| ensures !HasKey(EntriesAt(t, rest[i].path.value), rest[i].key.value) {
        assert rest[i] == ops[i + 1];
      }
    }
  }

  // ------------------------------------------------- cleaning undoes merging

  ghost predicate AllGenerated(ops: seq<Op>) { forall i :: 0 <= i < |ops| ==> Generated(ops[i].value) }

  lemma {:induction false} OpsAreGenerated(path: Node, es: seq<Entry>)
    ensures AllGenerated(OpsOfEntries(path, es))
  {
    if es != [] { OpsAreGenerated(path, es[1..]); }
  }

  lemma {:induction false} OpsOfAreGenerated(fragment: Section)
    ensures AllGenerated(OpsOf(fragment))
  {
    if fragment != [] {
      OpsAreGenerated(fragment[0].key, fragment[0].entries);
      OpsOfAreGenerated(fragment[1..]);
    }
  }

  lemma {:induction false} AllOpsAreGenerated(fragments: seq<Section>)
    ensures AllGenerated(AllOps(fragments))
  {
    if fragments != [] {
      OpsOfAreGenerated(fragments[0]);
      AllOpsAreGenerated(fragments[1..]);
    }
  }

  lemma CleanedAfterPlace(s: Section, o: Op)
    requires Generated(o.value)
    ensures Cleaned(Place(s, o)) == Cleaned(s)
  {
    var i, e := Find(s, o.path.value), Entry(o.key, o.value);
    assert Kept([e]) == [];
    if i < |s| {
      var g := Group(s[i].key, s[i].entries + [e]);
      assert s == s[..i] + ([s[i]] + s[i + 1..]);
      assert Place(s, o) == s[..i] + ([g] + s[i + 1..]);
      CleanedConcat(s[..i], [s[i]] + s[i + 1..]);
      CleanedConcat(s[..i], [g] + s[i + 1..]);
      CleanedConcat([s[i]], s[i + 1..]);
      CleanedConcat([g], s[i + 1..]);
      KeptConcat(s[i].entries, [e]);
      assert Kept(g.entries) == Kept(s[i].entries);
      assert Cleaned([g]) == Cleaned([s[i]]);
    } else {
      CleanedConcat(s, [Group(o.path, [e])]);
    }
  }

  lemma {:induction false} CleaningUndoesMerging(s: Section, ops: seq<Op>)
    requires AllGenerated(ops) && Merged(s, ops).Some?
    ensures Cleaned(Merged(s, ops).value) == Cleaned(s)
    decreases |ops|
  {
    if ops != [] {
      CleanedAfterPlace(s, ops[0]);
      CleaningUndoesMerging(Place(s, ops[0]), ops[1..]);
    }
  }

  /** One run of the composer over the paths. */
  function Composed(base: Section, fragments: seq<Section>): Option<Section> {
    Merged(Cleaned(base), AllOps(fragments))
  }

  /** Removing the generated operations of a composed contract gives the cleaned base back, so
      composing the output again with the same fragments reproduces it. */
  lemma CompositionIsFixedPoint(base: Section, fragments: seq<Section>)
    requires Composed(base, fragments).Some?
    ensures Cleaned(Composed(base, fragments).value) == Cleaned(base)
    ensures Composed(Composed(base, fragments).value, fragments) == Composed(base, fragments)
  {
    AllOpsAreGenerated(fragments);
    CleaningUndoesMerging(Cleaned(base), AllOps(fragments));
    CleanedIsClean(base);
    CleanIsFixed(Cleaned(base));
  }

  // ---------------------------------------------------------------- components

  function OpsOfGroup(g: Node, es: seq<Entry>): seq<Op> {
    if es == [] then [] else [Op(g, es[0].key, es[0].value)] + OpsOfGroup(g, es[1..])
  }

  /** A component group that the target lacks is created even when it stays empty. */
  function WithGroup(s: Section, g: Node): Section {
    if Find(s, g.value) < |s| then s else s + [Group(g, [])]
  }

  function MergedComponents(s: Section, source: Section): Option<Section>
    decreases |source|
  {
    if source == [] then Some(s)
    else match Merged(WithGroup(s, source[0].key), OpsOfGroup(source[0].key, source[0].entries))
         case None => None
         case Some(t) => MergedComponents(t, source[1..])
  }

  function ComponentOps(source: Section): seq<Op> {
    if source == [] then [] else OpsOfGroup(source[0].key, source[0].entries) + ComponentOps(source[1..])
  }

  lemma WithGroupKeepsEntries(s: Section, g: Node, path: string)
    ensures EntriesAt(WithGroup(s, g), path) == EntriesAt(s, path)
  {
    if Find(s, g.value) >= |s| { FindAfterAppend(s, Group(g, []), path); }
  }

  lemma NoCollisionSplit(s: Section, t: Section, a: seq<Op>, b: seq<Op>)
    requires Merged(s, a) == Some(t)
    ensures NoCollision(t, b) <==> NoCollision(s, a + b)
  {
    MergeSucceedsIff(s, a + b);
    MergedConcat(s, a, b);
    MergeSucceedsIff(t, b);
  }

  lemma NoCollisionEntries(s: Section, t: Section, ops: seq<Op>)
    requires forall p :: EntriesAt(s, p) == EntriesAt(t, p)
    ensures NoCollision(s, ops) <==> NoCollision(t, ops)
  {
  }

  lemma NoCollisionPrefix(s: Section, a: seq<Op>, b: seq<Op>)
    requires NoCollision(s, a + b)
    ensures NoCollision(s, a)
  {
    assert forall i :: 0 <= i < |a| ==> (a + b)[i] == a[i];
  }

  /** Components merge exactly when no (group, name) collides with the target or repeats. */
  lemma {:induction false} ComponentsMergeIff(s: Section, source: Section)
    ensures MergedComponents(s, source).Some? <==> NoCollision(s, ComponentOps(source))
    decreases |source|
  {
    if source != [] {
      var w := WithGroup(s, source[0].key);
      var a, b := OpsOfGroup(source[0].key, source[0].entries), ComponentOps(source[1..]);
      forall p ensures EntriesAt(s, p) == EntriesAt(w, p) { WithGroupKeepsEntries(s, source[0].key, p); }
      NoCollisionEntries(s, w, a + b);
      MergeSucceedsIff(w, a);
      match Merged(w, a)
      case None => if NoCollision(w, a + b) { NoCollisionPrefix(w, a, b); }
      case Some(t) =>
        NoCollisionSplit(w, t, a, b);
        ComponentsMergeIff(t, source[1..]);
    }
  }

  /** On success each group holds what it held, then the definitions addressed to it, in order. */
  lemma {:induction false} MergedComponentsContents(s: Section, source: Section, group: string)
    requires MergedComponents(s, source).Some?
    ensures EntriesAt(MergedComponents(s, source).value, group)
            == EntriesAt(s, group) + EntriesFor(ComponentOps(source), group)
    decreases |source|
  {
    if source != [] {
      var w := WithGroup(s, source[0].key);
      var a, b := OpsOfGroup(source[0].key, source[0].entries), ComponentOps(source[1..]);
      WithGroupKeepsEntries(s, source[0].key, group);
      MergedContents(w, a, group);
      MergedComponentsContents(Merged(w, a).value, source[1..], group);
      EntriesForConcat(a, b, group);
    }
  }

  lemma {:induction false} EntriesForConcat(a: seq<Op>, b: seq<Op>, path: string)
    ensures EntriesFor(a + b, path) == EntriesFor(a, path) + EntriesFor(b, path)
  {
    if a == [] { assert a + b == b; }
    else {
      assert (a + b)[0] == a[0] && (a + b)[1..] == a[1..] + b;
      EntriesForConcat(a[1..], b, path);
      var head := if a[0].path.value == path then [Entry(a[0].key, a[0].value)] else [];
      assert EntriesFor(a, path) == head + EntriesFor(a[1..], path);
    }
  }

  lemma {:induction false} EntriesForMember(ops: seq<Op>, i: nat)
    requires i < |ops|
    ensures HasKey(EntriesFor(ops, ops[i].path.value), ops[i].key.value)
  {
    var p, rest := ops[i].path.value, EntriesFor(ops[1..], ops[i].path.value);
    if i == 0 {
      assert EntriesFor(ops, p)[0] == Entry(ops[0].key, ops[0].value);
    } else {
      assert ops[1..][i - 1] == ops[i];
      EntriesForMember(ops[1..], i - 1);
      var k :| 0 <= k < |rest| && rest[k].key.value == ops[i].key.value;
      var shift := |EntriesFor(ops, p)| - |rest|;
      assert EntriesFor(ops, p)[k + shift] == rest[k];
    }
  }

  /** Unlike paths, components are not cleaned first: merging a fragment into a contract that
      already has its components fails, except when it declares none. */
  lemma ComponentsDoNotRemerge(s: Section, source: Section)
    requires MergedComponents(s, source).Some?
    ensures MergedComponents(MergedComponents(s, source).value, source).Some? <==> ComponentOps(source) == []
  {
    var t, ops := MergedComponents(s, source).value, ComponentOps(source);
    ComponentsMergeIff(t, source);
    if ops != [] {
      var g := ops[0].path.value;
      MergedComponentsContents(s, source, g);
      EntriesForMember(ops, 0);
      var added := EntriesFor(ops, g);
      var k :| 0 <= k < |added| && added[k].key.value == ops[0].key.value;
      assert EntriesAt(t, g)[|EntriesAt(s, g)| + k] == added[k];
      assert HasKey(EntriesAt(t, ops[0].path.value), ops[0].key.value);
    }
  }
}
