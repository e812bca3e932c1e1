/** Which lists of entities are accepted, in terms of the references as they were written, and what
    becomes of them. */
module DeclaredLists {
  import opened Options
  import opened SchemaTypes
  import opened Text
  import opened Normalizers
  import opened EntityOrder
  import opened NormalEntities
  import opened DeclaredEntities

  // ---------------------------------------------------------------- references as written

  ghost predicate Column(references: string, table: string, column: string) { references == table + "." + column }

  /** The reference is to the identifier or a field of some declared table. */
  ghost predicate RefersToColumn(es: seq<Entity>, k: ForeignKey) {
    exists j, column :: 0 <= j < |es| && Column(k.references, Trim(es[j].table), column)
      && (column == "id" || exists f :: f in es[j].fields && Trim(f.name) == column)
  }

  /** Some key of the `i`th entity refers to the table of the `j`th. */
  ghost predicate Refers(es: seq<Entity>, i: nat, j: nat)
    requires i < |es| && j < |es|
  {
    exists k, column :: k in es[i].foreignKeys && Column(k.references, Trim(es[j].table), column)
  }

  /** A closed walk along such references between different tables. */
  ghost predicate ReferenceCycle(es: seq<Entity>, w: seq<nat>) {
    && |w| >= 2 && w[0] == w[|w| - 1] && (forall k :: 0 <= k < |w| ==> w[k] < |es|)
    && forall k, m :: 0 <= k < m < |w| && m == k + 1 ==>
         Trim(es[w[k]].table) != Trim(es[w[m]].table) && Refers(es, w[k], w[m])
  }

  // ---------------------------------------------------------------- as normalised

  /** The tables, fields and keys of `ns` are those declared in `es`. */
  ghost predicate SaysThe(e: Entity, n: Entity) {
    && n.table == Trim(e.table) && TableName(n.table)
    && |n.fields| == |e.fields| && (forall i :: 0 <= i < |e.fields| ==> n.fields[i].name == Trim(e.fields[i].name))
    && |n.foreignKeys| == |e.foreignKeys|
    && (forall i :: 0 <= i < |e.foreignKeys| ==> DeclaresKey(e.foreignKeys[i], n.foreignKeys[i]))
  }

  ghost predicate SaysSame(es: seq<Entity>, ns: seq<Entity>) {
    |ns| == |es| && forall i :: 0 <= i < |es| ==> SaysThe(es[i], ns[i])
  }

  lemma KeyNames(k: ForeignKey, n: ForeignKey, table: string, column: string)
    requires DeclaresKey(k, n) && TableName(table)
    ensures Column(k.references, table, column) <==> n.refTable == table && n.refField == column
  {
    NameHasNoDot(table);
    NameHasNoDot(n.refTable);
    if Column(k.references, table, column) { DotIsUnique(n.refTable, n.refField, table, column); }
  }

  lemma HasColumnIff(e: Entity, n: Entity, column: string)
    requires SaysThe(e, n)
    ensures HasColumn(n, column) <==> exists f :: f in e.fields && Trim(f.name) == column
  {
    if HasColumn(n, column) {
      var f :| f in n.fields && f.name == column;
      var i :| 0 <= i < |n.fields| && n.fields[i] == f;
      assert e.fields[i] in e.fields && Trim(e.fields[i].name) == column;
    }
    if f :| f in e.fields && Trim(f.name) == column {
      var i :| 0 <= i < |e.fields| && e.fields[i] == f;
      assert n.fields[i] in n.fields && n.fields[i].name == column;
    }
  }

  lemma ResolvesIff(es: seq<Entity>, ns: seq<Entity>, k: ForeignKey, n: ForeignKey)
    requires SaysSame(es, ns) && DeclaresKey(k, n)
    ensures Resolves(ns, n) <==> RefersToColumn(es, k)
  {
    if Resolves(ns, n) {
      var p :| p in ns && p.table == n.refTable && (n.refField == "id" || HasColumn(p, n.refField));
      var j :| 0 <= j < |ns| && ns[j] == p;
      KeyNames(k, n, p.table, n.refField);
      HasColumnIff(es[j], ns[j], n.refField);
      assert Column(k.references, Trim(es[j].table), n.refField);
    }
    if RefersToColumn(es, k) {
      var j, column :| 0 <= j < |es| && Column(k.references, Trim(es[j].table), column)
        && (column == "id" || exists f :: f in es[j].fields && Trim(f.name) == column);
      KeyNames(k, n, ns[j].table, column);
      HasColumnIff(es[j], ns[j], column);
      assert ns[j] in ns;
    }
  }

  lemma ResolvableIff(es: seq<Entity>, ns: seq<Entity>)
    requires SaysSame(es, ns)
    ensures Resolvable(ns) <==> forall e, k :: e in es && k in e.foreignKeys ==> RefersToColumn(es, k)
  {
    if Resolvable(ns) {
      forall e, k | e in es && k in e.foreignKeys ensures RefersToColumn(es, k) {
        var i :| 0 <= i < |es| && es[i] == e;
        var m :| 0 <= m < |e.foreignKeys| && e.foreignKeys[m] == k;
        assert ns[i] in ns && EntityResolves(ns, ns[i]) && ns[i].foreignKeys[m] in ns[i].foreignKeys;
        ResolvesIff(es, ns, k, ns[i].foreignKeys[m]);
      }
    }
    if forall e, k :: e in es && k in e.foreignKeys ==> RefersToColumn(es, k) {
      forall n, fk | n in ns && fk in n.foreignKeys ensures Resolves(ns, fk) {
        var i :| 0 <= i < |ns| && ns[i] == n;
        var m :| 0 <= m < |n.foreignKeys| && n.foreignKeys[m] == fk;
        assert es[i] in es && es[i].foreignKeys[m] in es[i].foreignKeys;
        ResolvesIff(es, ns, es[i].foreignKeys[m], fk);
      }
    }
  }

  lemma DependsIff(es: seq<Entity>, ns: seq<Entity>, i: nat, j: nat)
    requires SaysSame(es, ns) && i < |es| && j < |es|
    ensures ns[j].table in Deps(ns[i]) <==> Trim(es[i].table) != Trim(es[j].table) && Refers(es, i, j)
  {
    if ns[j].table in Deps(ns[i]) { DependencyRefers(es, ns, i, j); }
    if Trim(es[i].table) != Trim(es[j].table) && Refers(es, i, j) {
      var k, column :| k in es[i].foreignKeys && Column(k.references, Trim(es[j].table), column);
      var m :| 0 <= m < |es[i].foreignKeys| && es[i].foreignKeys[m] == k;
      KeyNames(k, ns[i].foreignKeys[m], ns[j].table, column);
      assert ns[i].foreignKeys[m] in ns[i].foreignKeys;
    }
  }

  lemma DependencyRefers(es: seq<Entity>, ns: seq<Entity>, i: nat, j: nat)
    requires SaysSame(es, ns) && i < |es| && j < |es| && ns[j].table in Deps(ns[i])
    ensures Trim(es[i].table) != Trim(es[j].table) && Refers(es, i, j)
  {
    var fk :| fk in ns[i].foreignKeys && fk.refTable != ns[i].table && fk.refTable == ns[j].table;
    var m :| 0 <= m < |ns[i].foreignKeys| && ns[i].foreignKeys[m] == fk;
    KeyNames(es[i].foreignKeys[m], fk, ns[j].table, fk.refField);
    assert es[i].foreignKeys[m] in es[i].foreignKeys
      && Column(es[i].foreignKeys[m].references, Trim(es[j].table), fk.refField);
  }

  lemma CycleIff(es: seq<Entity>, ns: seq<Entity>, w: seq<nat>)
    requires SaysSame(es, ns)
    ensures Cycle(ns, w) <==> ReferenceCycle(es, w)
  {
    forall k, m | 0 <= k < m < |w| && m == k + 1 && w[k] < |es| && w[m] < |es|
      ensures ns[w[m]].table in Deps(ns[w[k]]) <==>
        Trim(es[w[k]].table) != Trim(es[w[m]].table) && Refers(es, w[k], w[m])
    {
      DependsIff(es, ns, w[k], w[m]);
    }
  }

  // ---------------------------------------------------------------- accepted lists

  /** Whether the `i`th entity is the primary one: it is marked, or the first and none is marked. */
  ghost predicate IsPrimary(es: seq<Entity>, i: nat)
    requires i < |es|
  {
    es[i].primary || (i == 0 && forall j :: 0 <= j < |es| ==> !es[j].primary)
  }

  /** `ns` are the declared entities, one by one, with the primary one marked. */
  ghost predicate DeclaresList(es: seq<Entity>, ns: seq<Entity>) {
    |ns| == |es| && forall i :: 0 <= i < |es| ==> DeclaresEntity(es[i].(primary := IsPrimary(es, i)), ns[i])
  }

  ghost predicate ListAllowed(es: seq<Entity>) {
    && es != []
    && (forall i, j :: 0 <= i < j < |es| ==>
          Trim(es[i].table) != Trim(es[j].table) && !(es[i].primary && es[j].primary))
    && (forall e, k :: e in es && k in e.foreignKeys ==> RefersToColumn(es, k))
    && (forall w :: !ReferenceCycle(es, w))
  }

  ghost predicate DeclaresEach(es: seq<Entity>, each: seq<Entity>) {
    |each| == |es| && forall i :: 0 <= i < |es| ==> DeclaresEntity(es[i], each[i])
  }

  lemma EachDeclared(es: seq<Entity>, each: seq<Entity>)
    requires NormAll(NormEntity, es) == Some(each)
    ensures DeclaresEach(es, each)
  {
    NormAllEach(NormEntity, es);
    forall i | 0 <= i < |es| ensures DeclaresEntity(es[i], each[i]) { EntityIff(es[i], each[i]); }
  }

  lemma EachSays(es: seq<Entity>, each: seq<Entity>)
    requires DeclaresEach(es, each)
    ensures forall i :: 0 <= i < |es| ==> each[i].table == Trim(es[i].table) && each[i].primary == es[i].primary
  {
    forall i | 0 <= i < |es| ensures each[i].table == Trim(es[i].table) && each[i].primary == es[i].primary {
      assert DeclaresEntity(es[i], each[i]);
    }
  }

  lemma PrimaryDeclared(es: seq<Entity>, each: seq<Entity>)
    requires es != [] && DeclaresEach(es, each)
    ensures DeclaresList(es, WithPrimary(each))
  {
    EachSays(es, each);
    forall i | 0 <= i < |es| ensures DeclaresEntity(es[i].(primary := IsPrimary(es, i)), WithPrimary(each)[i]) {
      MarkedDeclared(es[i], each[i], IsPrimary(es, i));
      PrimaryFlag(es, each, i);
    }
  }

  lemma PrimaryFlag(es: seq<Entity>, each: seq<Entity>, i: nat)
    requires es != [] && |each| == |es| && i < |es| && forall j :: 0 <= j < |es| ==> each[j].primary == es[j].primary
    ensures WithPrimary(each)[i] == each[i].(primary := IsPrimary(es, i))
  {
    if SomePrimary(each) {
      var j :| 0 <= j < |each| && each[j].primary;
      assert es[j].primary;
    }
  }

  lemma MarkedDeclared(e: Entity, n: Entity, primary: bool)
    requires DeclaresEntity(e, n)
    ensures DeclaresEntity(e.(primary := primary), n.(primary := primary))
  {
    SameFieldsConsistent(n, n.(primary := primary));
  }

  lemma SameFieldsConsistent(n: Entity, m: Entity)
    requires FieldsConsistent(n) && m.fields == n.fields && m.indexes == n.indexes && m.foreignKeys == n.foreignKeys
    ensures FieldsConsistent(m)
  {
    forall name ensures IsField(n, name) <==> IsField(m, name) {}
    forall x | x in m.indexes ensures IndexOver(m, x) { assert IndexOver(n, x); }
  }

  lemma ListSaysSame(es: seq<Entity>, ns: seq<Entity>)
    requires DeclaresList(es, ns)
    ensures SaysSame(es, ns)
  {
    forall i | 0 <= i < |es| ensures SaysThe(es[i], ns[i]) {
      assert DeclaresEntity(es[i].(primary := IsPrimary(es, i)), ns[i]);
      forall k | 0 <= k < |es[i].fields| ensures ns[i].fields[k].name == Trim(es[i].fields[k].name) {
        assert DeclaresField(es[i].fields[k], ns[i].fields[k]);
      }
    }
  }

  lemma OrderedIff(es: seq<Entity>, ns: seq<Entity>)
    requires DeclaresList(es, ns) && WellNamed(ns)
    ensures OrderOf(ns).Some? <==>
      (forall e, k :: e in es && k in e.foreignKeys ==> RefersToColumn(es, k)) && forall w :: !ReferenceCycle(es, w)
    ensures OrderOf(ns).Some? ==> exists p :: IsLeastOrder(ns, p) && OrderOf(ns).value == Pick(ns, p)
  {
    ListSaysSame(es, ns);
    ResolvableIff(es, ns);
    forall w ensures Cycle(ns, w) <==> ReferenceCycle(es, w) { CycleIff(es, ns, w); }
    if Resolvable(ns) { GreedyOrderCorrect(ns); }
  }

  /** A list of entities is accepted exactly when each of them is, their tables differ, at most one is
      marked as primary, every reference is to a declared column, and the references between tables have no
      cycle. */
  lemma EntitiesAcceptedIff(es: seq<Entity>)
    ensures NormEntities(es).Some? <==>
      ListAllowed(es) && forall i :: 0 <= i < |es| ==> NormEntity(es[i]).Some?
  {
    NormAllEach(NormEntity, es);
    if es != [] && NormAll(NormEntity, es).Some? {
      var each := NormAll(NormEntity, es).value;
      EachDeclared(es, each);
      OrderingIff(es, each);
    }
  }

  lemma OrderingIff(es: seq<Entity>, each: seq<Entity>)
    requires es != [] && DeclaresEach(es, each)
    ensures DistinctTables(each) && OnePrimaryAtMost(each) && OrderOf(WithPrimary(each)).Some? <==> ListAllowed(es)
  {
    EachSays(es, each);
    PrimaryDeclared(es, each);
    if DistinctTables(each) {
      PrimaryWellNamed(es, WithPrimary(each));
      OrderedIff(es, WithPrimary(each));
    }
  }

  lemma PrimaryWellNamed(es: seq<Entity>, ns: seq<Entity>)
    requires DeclaresList(es, ns) && forall i, j :: 0 <= i < j < |es| ==> Trim(es[i].table) != Trim(es[j].table)
    ensures WellNamed(ns)
  {
    ListSaysSame(es, ns);
    forall i | 0 <= i < |ns| ensures ns[i].table == Trim(es[i].table) != "" { assert SaysThe(es[i], ns[i]); }
  }

  /** It becomes the list of the declared entities, in the least order that puts each after those it refers
      to, with the marked entity, or else the first, as the primary one. */
  lemma EntitiesBecome(es: seq<Entity>)
    requires NormEntities(es).Some?
    ensures exists ns, p :: DeclaresList(es, ns) && IsLeastOrder(ns, p) && NormEntities(es).value == Pick(ns, p)
  {
    EntitiesAcceptedIff(es);
    NormAllEach(NormEntity, es);
    var each := NormAll(NormEntity, es).value;
    var ns := WithPrimary(each);
    EachDeclared(es, each);
    PrimaryDeclared(es, each);
    PrimaryWellNamed(es, ns);
    OrderedIff(es, ns);
  }
}
