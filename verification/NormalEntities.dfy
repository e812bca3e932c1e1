/** `normalizeEntity`, `normalizeField` and the entity part of `Normalize`. */
module NormalEntities {
  import opened Options
  import opened SchemaTypes
  import opened Ordering
  import opened Text
  import opened Uniques
  import opened PolicyRules
  import opened Normalizers
  import opened EntityOrder

  // ---------------------------------------------------------------- fields

  /** Go and SQL types of a field kind; an unknown kind has none. */
  function FieldTypes(kind: string, size: int): (string, string) {
    match kind
    case "string" => ("string", "VARCHAR(" + FormatUint(if size == 0 then 255 else if size < 0 then 0 else size) + ")")
    case "text" => ("string", "LONGTEXT")
    case "int64" => ("int64", "BIGINT")
    case "uint64" => ("uint64", "BIGINT UNSIGNED")
    case "bool" => ("bool", "BOOLEAN")
    case "datetime" => ("time.Time", "DATETIME(3)")
    case "json" => ("[]byte", "JSON")
    case _ => ("", "")
  }

  function ExportedName(s: string, upper: bool): string {
    if s == "" then ""
    else if s[0] == '_' then ExportedName(s[1..], true)
    else [if upper then UpperChar(s[0]) else s[0]] + ExportedName(s[1..], false)
  }

  function Tags(f: Field): string {
    "column:" + f.name + (if f.required then ";not null" else "")
    + (if f.unique then ";uniqueIndex" else if f.index then ";index" else "")
  }

  predicate ReservedName(s: string) { s == "id" || s == "created_at" || s == "updated_at" }

  /** The derived columns of a field whose own ones are set. */
  function Derive(f: Field): Field {
    var types := FieldTypes(f.kind, f.size);
    f.(goType := (if f.required then "" else "*") + types.0, sqlType := types.1, goName := ExportedName(f.name, true),
       jsonName := f.name, gormTag := Tags(f))
  }

  function NormField(f: Field): Option<Field> {
    var g := f.(name := Trim(f.name), renameFrom := Trim(f.renameFrom), kind := LowerTrim(f.kind));
    if !TableName(g.name) || ReservedName(g.name) then None
    else if g.renameFrom != "" && !TableName(g.renameFrom) then None
    else if FieldTypes(g.kind, g.size).0 == "" then None
    else if g.size < 0 || g.size > 65535 then None
    else Some(Derive(g))
  }

  lemma DeriveAgain(g: Field)
    ensures Derive(Derive(g)) == Derive(g)
  {
  }

  lemma NormFieldSettles()
    ensures Settles(NormField)
  {
    forall f | NormField(f).Some? ensures NormField(NormField(f).value) == NormField(f) {
      TrimTwice(f.name);
      TrimTwice(f.renameFrom);
      LowerTrimTwice(f.kind);
      var g := f.(name := Trim(f.name), renameFrom := Trim(f.renameFrom), kind := LowerTrim(f.kind));
      DeriveAgain(g);
    }
  }

  // ---------------------------------------------------------------- foreign keys and indexes

  const CASCADE := "CASCADE"

  predicate OnDeleteOk(s: string) { s == CASCADE || s == "RESTRICT" || s == "SET NULL" }

  function OnDelete(s: string): string { if UpperTrim(s) == "" then CASCADE else UpperTrim(s) }

  function NormForeignKey(k: ForeignKey): Option<ForeignKey> {
    var parts := Split(k.references, '.');
    if |parts| != 2 || !TableName(parts[0]) || !TableName(parts[1]) then None
    else if !OnDeleteOk(OnDelete(k.onDelete)) then None
    else Some(k.(refTable := parts[0], refField := parts[1], onDelete := OnDelete(k.onDelete)))
  }

  lemma OnDeleteTwice(s: string)
    ensures OnDelete(OnDelete(s)) == OnDelete(s)
  {
    UpperTrimTwice(s);
    assert Trimmed(CASCADE);
    TrimOfTrimmed(CASCADE);
    assert ToUpper(CASCADE) == CASCADE;
  }

  lemma NormForeignKeySettles()
    ensures Settles(NormForeignKey)
  {
    forall k | NormForeignKey(k).Some? ensures NormForeignKey(NormForeignKey(k).value) == NormForeignKey(k) {
      OnDeleteTwice(k.onDelete);
    }
  }

  ghost predicate IndexOk(names: set<string>, i: Index) {
    TableName(i.name) && i.fields != [] && forall f :: f in i.fields ==> f in names
  }

  function FieldNames(fields: seq<Field>): seq<string> { seq(|fields|, i requires 0 <= i < |fields| => fields[i].name) }

  // ---------------------------------------------------------------- entities

  /** The checks on an entity whose parts are normalised. */
  ghost predicate EntityOk(e: Entity) {
    var names := set n | n in FieldNames(e.fields);
    && TypeName(e.name) && TableName(e.table) && e.fields != [] && NoRepeats(FieldNames(e.fields))
    && (forall i :: i in e.indexes ==> IndexOk(names, i))
    && (forall k :: k in e.foreignKeys ==> k.field in names)
  }

  ghost function NormEntity(e: Entity): Option<Entity> {
    var fields, keys := NormAll(NormField, e.fields), NormAll(NormForeignKey, e.foreignKeys);
    if fields.None? || keys.None? then None
    else
      var n := e.(name := Trim(e.name), table := Trim(e.table), fields := fields.value, foreignKeys := keys.value);
      if EntityOk(n) then Some(n) else None
  }

  lemma NormEntitySettles()
    ensures Settles(NormEntity)
  {
    NormFieldSettles();
    NormForeignKeySettles();
    forall e | NormEntity(e).Some? ensures NormEntity(NormEntity(e).value) == NormEntity(e) {
      TrimTwice(e.name);
      TrimTwice(e.table);
      NormAllSettles(NormField, e.fields);
      NormAllSettles(NormForeignKey, e.foreignKeys);
    }
  }

  /** The primary flag takes no part in the normalisation of an entity. */
  lemma PrimaryIsFree(e: Entity)
    requires NormEntity(e) == Some(e)
    ensures NormEntity(e.(primary := true)) == Some(e.(primary := true))
  {
    assert EntityOk(e);
    assert EntityOk(e.(primary := true));
  }

  // ---------------------------------------------------------------- the entity list

  ghost predicate DistinctTables(es: seq<Entity>) { forall i, j :: 0 <= i < j < |es| ==> es[i].table != es[j].table }

  ghost predicate OnePrimaryAtMost(es: seq<Entity>) {
    forall i, j :: 0 <= i < j < |es| ==> !(es[i].primary && es[j].primary)
  }

  ghost predicate SomePrimary(es: seq<Entity>) { exists i :: 0 <= i < |es| && es[i].primary }

  /** The first entity becomes the primary one if none is marked. */
  ghost function WithPrimary(es: seq<Entity>): seq<Entity>
    requires es != []
  {
    if SomePrimary(es) then es else es[0 := es[0].(primary := true)]
  }

  ghost function OrderOf(es: seq<Entity>): Option<seq<Entity>> {
    if !Resolvable(es) then None
    else match GreedyOrder(es)
         case Ordered(r) => Some(r)
         case OrderFailed(_) => None
  }

  function PrimaryOf(es: seq<Entity>): Option<Entity> {
    if es == [] then None else if es[0].primary then Some(es[0]) else PrimaryOf(es[1..])
  }

  ghost function NormEntities(es: seq<Entity>): Option<seq<Entity>> {
    var each := NormAll(NormEntity, es);
    if es == [] || each.None? then None
    else if !DistinctTables(each.value) || !OnePrimaryAtMost(each.value) then None
    else OrderOf(WithPrimary(each.value))
  }

  lemma {:induction false} PrimaryOfCorrect(es: seq<Entity>)
    ensures PrimaryOf(es).Some? <==> SomePrimary(es)
    ensures PrimaryOf(es).Some? ==> PrimaryOf(es).value in es && PrimaryOf(es).value.primary
  {
    if es != [] {
      PrimaryOfCorrect(es[1..]);
      if SomePrimary(es[1..]) {
        var i :| 0 <= i < |es[1..]| && es[1..][i].primary;
        assert es[i + 1].primary;
      }
      if SomePrimary(es) && !es[0].primary {
        var i :| 0 <= i < |es| && es[i].primary;
        assert es[1..][i - 1].primary;
      }
    }
  }

  /** What an accepted entity list is like: ordered by dependencies, one primary entity, each entity
      left alone by its own normalisation. */
  ghost predicate NormalEntities(es: seq<Entity>) {
    && es != [] && WellNamed(es) && OnePrimaryAtMost(es) && SomePrimary(es) && Resolvable(es)
    && (forall e :: e in es ==> NormEntity(e) == Some(e))
    && (forall k :: 0 <= k < |es| ==> Deps(es[k]) <= Tables(es[..k]))
  }

  lemma NormalIsFixed(es: seq<Entity>)
    requires NormalEntities(es)
    ensures NormEntities(es) == Some(es)
  {
    NormAllFixed(NormEntity, es);
    OrderOfOrdered(es);
  }

  lemma WithPrimaryFixed(each: seq<Entity>, i: nat)
    requires each != [] && i < |each| && forall e :: e in each ==> NormEntity(e) == Some(e)
    ensures NormEntity(WithPrimary(each)[i]) == Some(WithPrimary(each)[i])
    ensures WithPrimary(each)[i].table == each[i].table != ""
  {
    assert each[i] in each && EntityOk(each[i]);
    if !SomePrimary(each) && i == 0 { PrimaryIsFree(each[0]); }
  }

  lemma WithPrimaryMarks(each: seq<Entity>)
    requires each != [] && OnePrimaryAtMost(each)
    ensures OnePrimaryAtMost(WithPrimary(each)) && SomePrimary(WithPrimary(each))
  {
    if !SomePrimary(each) { assert WithPrimary(each)[0].primary; }
  }

  lemma WithPrimaryNormal(each: seq<Entity>)
    requires each != [] && DistinctTables(each) && OnePrimaryAtMost(each)
    requires forall e :: e in each ==> NormEntity(e) == Some(e)
    ensures WellNamed(WithPrimary(each)) && OnePrimaryAtMost(WithPrimary(each)) && SomePrimary(WithPrimary(each))
    ensures forall e :: e in WithPrimary(each) ==> NormEntity(e) == Some(e)
  {
    var es := WithPrimary(each);
    WithPrimaryMarks(each);
    forall i | 0 <= i < |es| ensures NormEntity(es[i]) == Some(es[i]) && es[i].table == each[i].table != "" {
      WithPrimaryFixed(each, i);
    }
  }

  lemma PermutedResolvable(a: seq<Entity>, b: seq<Entity>)
    requires multiset(a) == multiset(b) && Resolvable(a)
    ensures Resolvable(b)
  {
    MembersOfMultiset(a, b);
    forall e | e in b ensures EntityResolves(b, e) {
      assert EntityResolves(a, e);
      forall fk | fk in e.foreignKeys ensures Resolves(b, fk) {
        assert Resolves(a, fk);
        var p :| p in a && p.table == fk.refTable && (fk.refField == "id" || HasColumn(p, fk.refField));
        assert p in b;
      }
    }
  }

  /** Picking entities in another order keeps what does not depend on the order. */
  lemma PickedEntities(es: seq<Entity>, p: seq<nat>)
    requires WellNamed(es) && OnePrimaryAtMost(es) && SomePrimary(es) && Arrangement(es, p)
    ensures WellNamed(Pick(es, p)) && OnePrimaryAtMost(Pick(es, p)) && SomePrimary(Pick(es, p))
    ensures multiset(Pick(es, p)) == multiset(es)
  {
    var r := Pick(es, p);
    ArrangementIsPermutation(es, p);
    forall i, j | 0 <= i < j < |r| ensures r[i].table != r[j].table && !(r[i].primary && r[j].primary) {
      if p[i] < p[j] { assert es[p[i]].table != es[p[j]].table; } else { assert es[p[j]].table != es[p[i]].table; }
    }
    MembersOfMultiset(es, r);
    var i :| 0 <= i < |es| && es[i].primary;
    assert es[i] in r;
    var k :| 0 <= k < |r| && r[k] == es[i];
    assert r[k].primary;
  }

  lemma PickedDependencies(es: seq<Entity>, p: seq<nat>, k: nat)
    requires DependencyOrder(es, p) && k < |p|
    ensures Deps(Pick(es, p)[k]) <= Tables(Pick(es, p)[..k])
  {
    var r := Pick(es, p);
    forall t | t in Deps(r[k]) ensures t in Tables(r[..k]) {
      assert t in TablesAt(es, p[..k]);
      var m :| 0 <= m < k && es[p[..k][m]].table == t;
      assert r[..k][m].table == t && r[..k][m] in r[..k];
    }
  }

  /** Normalising an entity list twice gives the list of the first time, with the same primary. */
  lemma NormEntitiesSettles(es: seq<Entity>)
    requires NormEntities(es).Some?
    ensures NormalEntities(NormEntities(es).value)
    ensures NormEntities(NormEntities(es).value) == NormEntities(es)
  {
    var each := NormAll(NormEntity, es).value;
    NormEntitySettles();
    NormAllSettles(NormEntity, es);
    NormAllEach(NormEntity, es);
    WithPrimaryNormal(each);
    var ready := WithPrimary(each);
    GreedyIsDependencyOrder(ready, []);
    var p := Greedy(ready, []).value;
    PickedEntities(ready, p);
    var r := Pick(ready, p);
    PermutedResolvable(ready, r);
    MembersOfMultiset(ready, r);
    forall k | 0 <= k < |r| ensures Deps(r[k]) <= Tables(r[..k]) { PickedDependencies(ready, p, k); }
    NormalIsFixed(r);
  }
}
