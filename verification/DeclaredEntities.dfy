/** What an accepted entity says, and which entities and lists of entities are accepted, in terms of the
    declarations as they were written. */
module DeclaredEntities {
  import opened Options
  import opened SchemaTypes
  import opened Text
  import opened Uniques
  import opened PolicyRules
  import opened Normalizers
  import opened EntityOrder
  import opened NormalEntities

  // ---------------------------------------------------------------- foreign keys

  lemma NameHasNoDot(s: string)
    requires TableName(s)
    ensures Without(s, '.')
  {
  }

  /** A text splits at a dot in one way if no dot comes before it. */
  lemma DotIsUnique(a: string, b: string, c: string, d: string)
    requires Without(a, '.') && Without(c, '.') && a + "." + b == c + "." + d
    ensures a == c && b == d
  {
    var s := a + "." + b;
    assert s[|a|] == '.' && s[|c|] == '.' && s[..|a|] == a && s[..|c|] == c;
    assert |a| == |c| && s[|a| + 1..] == b && s[|c| + 1..] == d;
  }

  /** The action is the one written, in capitals, and to cascade if nothing is. */
  ghost predicate Action(written: string, action: string) {
    && (action == "CASCADE" || action == "RESTRICT" || action == "SET NULL")
    && (if AllSpace(written) then action == "CASCADE" else action == ToUpper(Trim(written)))
  }

  lemma ActionIff(written: string, action: string)
    ensures Action(written, action) <==> action == OnDelete(written) && OnDeleteOk(action)
  {
    TrimIsEmptyIff(written);
    assert UpperTrim(written) == "" <==> Trim(written) == "";
  }

  /** A key refers to the column `refField` of `refTable` by the text `references`. */
  ghost predicate DeclaresKey(k: ForeignKey, n: ForeignKey) {
    && n.field == k.field && n.references == k.references && k.references == n.refTable + "." + n.refField
    && TableName(n.refTable) && TableName(n.refField) && Action(k.onDelete, n.onDelete)
  }

  lemma ForeignKeyIff(k: ForeignKey, n: ForeignKey)
    ensures NormForeignKey(k) == Some(n) <==> DeclaresKey(k, n)
  {
    ActionIff(k.onDelete, n.onDelete);
    if DeclaresKey(k, n) {
      NameHasNoDot(n.refTable);
      NameHasNoDot(n.refField);
      var parts := [n.refTable, n.refField];
      assert Join(parts, '.') == n.refTable + "." + Join(parts[1..], '.');
      SplitOfJoin(parts, '.');
      assert Split(k.references, '.') == parts;
    }
    if NormForeignKey(k) == Some(n) { KeyParts(k.references); }
  }

  lemma KeyParts(references: string)
    requires |Split(references, '.')| == 2
    ensures references == Split(references, '.')[0] + "." + Split(references, '.')[1]
  {
    var parts := Split(references, '.');
    JoinOfSplit(references, '.');
    assert Join(parts, '.') == parts[0] + "." + Join(parts[1..], '.');
  }

  // ---------------------------------------------------------------- fields

  /** Type names of Go and SQL for the kinds without a size. */
  const FIXED_TYPES := {("text", "string", "LONGTEXT"), ("int64", "int64", "BIGINT"),
                        ("uint64", "uint64", "BIGINT UNSIGNED"), ("bool", "bool", "BOOLEAN"),
                        ("datetime", "time.Time", "DATETIME(3)"), ("json", "[]byte", "JSON")}

  ghost predicate HasTypes(kind: string, size: int, go: string, sql: string)
    requires size >= 0
  {
    || (kind, go, sql) in FIXED_TYPES
    || (kind == "string" && go == "string"
        && sql == "VARCHAR(" + FormatUint(if size == 0 then 255 else size) + ")")
  }

  lemma TypesIff(kind: string, size: int, go: string, sql: string)
    requires size >= 0
    ensures HasTypes(kind, size, go, sql) <==> go != "" && FieldTypes(kind, size) == (go, sql)
  {
  }

  /** The words of a name, each with a capital. */
  function Capitalised(words: seq<string>): string {
    if words == [] then ""
    else (if words[0] == "" then "" else [UpperChar(words[0][0])] + words[0][1..]) + Capitalised(words[1..])
  }

  lemma {:induction false} ExportedIsCapitalised(s: string)
    ensures ExportedName(s, true) == Capitalised(Split(s, '_'))
    ensures ExportedName(s, false) == Split(s, '_')[0] + Capitalised(Split(s, '_')[1..])
  {
    if s != "" {
      ExportedIsCapitalised(s[1..]);
      var rest := Split(s[1..], '_');
      if s[0] == '_' {
        assert Split(s, '_')[1..] == rest;
      } else {
        assert Split(s, '_')[0] == [s[0]] + rest[0] && Split(s, '_')[1..] == rest[1..];
        assert ([s[0]] + rest[0])[1..] == rest[0];
      }
    }
  }

  function TagList(f: Field): seq<string> {
    ["column:" + f.name] + (if f.required then ["not null"] else [])
    + (if f.unique then ["uniqueIndex"] else if f.index then ["index"] else [])
  }

  lemma TagsAreJoined(f: Field)
    ensures Tags(f) == Join(TagList(f), ';')
  {
    var tags := TagList(f);
    if |tags| > 1 { assert Join(tags, ';') == tags[0] + [';'] + Join(tags[1..], ';'); }
    if |tags| > 2 { assert Join(tags[1..], ';') == tags[1] + [';'] + Join(tags[2..], ';'); }
  }

  /** What was written, trimmed. */
  ghost predicate DeclaresColumns(f: Field, n: Field) {
    && n.name == Trim(f.name) && n.renameFrom == Trim(f.renameFrom) && n.kind == ToLower(Trim(f.kind))
    && n.required == f.required && n.size == f.size && n.unique == f.unique && n.index == f.index
  }

  ghost predicate FieldAllowed(n: Field) {
    && TableName(n.name) && n.name !in {"id", "created_at", "updated_at"}
    && (n.renameFrom == "" || TableName(n.renameFrom)) && 0 <= n.size <= 65535
  }

  /** What is derived from it: a pointer type for what may be missing, the capitalised words of the name,
      the tags one after the other. */
  ghost predicate DerivesColumns(n: Field)
    requires n.size >= 0
  {
    && n.jsonName == n.name && n.goName == Capitalised(Split(n.name, '_')) && n.gormTag == Join(TagList(n), ';')
    && (if n.required then HasTypes(n.kind, n.size, n.goType, n.sqlType)
        else n.goType != "" && n.goType[0] == '*' && HasTypes(n.kind, n.size, n.goType[1..], n.sqlType))
  }

  ghost predicate DeclaresField(f: Field, n: Field) {
    DeclaresColumns(f, n) && FieldAllowed(n) && DerivesColumns(n)
  }

  lemma FieldIff(f: Field, n: Field)
    ensures NormField(f) == Some(n) <==> DeclaresField(f, n)
  {
    var g := f.(name := Trim(f.name), renameFrom := Trim(f.renameFrom), kind := LowerTrim(f.kind));
    if NormField(f) == Some(n) || DeclaresField(f, n) {
      DerivedIff(g, n);
    }
  }

  /** The type of a field that may be missing is a pointer. */
  lemma GoTypeIff(kind: string, size: int, required: bool, go: string, sql: string)
    requires size >= 0
    ensures FieldTypes(kind, size).0 != ""
            && go == (if required then "" else "*") + FieldTypes(kind, size).0 && sql == FieldTypes(kind, size).1 <==>
      if required then HasTypes(kind, size, go, sql)
      else go != "" && go[0] == '*' && HasTypes(kind, size, go[1..], sql)
  {
    TypesIff(kind, size, go, sql);
    assert ("*" + FieldTypes(kind, size).0)[1..] == FieldTypes(kind, size).0;
    if go != "" {
      TypesIff(kind, size, go[1..], sql);
      assert go == [go[0]] + go[1..];
    }
    assert "" + FieldTypes(kind, size).0 == FieldTypes(kind, size).0;
  }

  lemma DerivedIff(g: Field, n: Field)
    requires 0 <= g.size
    ensures n == Derive(g) && FieldTypes(g.kind, g.size).0 != "" <==>
      n == g.(goName := n.goName, goType := n.goType, sqlType := n.sqlType, jsonName := n.jsonName,
              gormTag := n.gormTag)
      && DerivesColumns(n)
  {
    ExportedIsCapitalised(g.name);
    TagsAreJoined(g);
    TagsAreJoined(n);
    GoTypeIff(g.kind, g.size, g.required, n.goType, n.sqlType);
  }

  // ---------------------------------------------------------------- entities

  ghost predicate DeclaresEntity(e: Entity, n: Entity) {
    && n.name == Trim(e.name) && TypeName(n.name) && n.table == Trim(e.table) && TableName(n.table)
    && n.primary == e.primary && n.indexes == e.indexes
    && |n.fields| == |e.fields| > 0 && (forall i :: 0 <= i < |e.fields| ==> DeclaresField(e.fields[i], n.fields[i]))
    && |n.foreignKeys| == |e.foreignKeys|
    && (forall i :: 0 <= i < |e.foreignKeys| ==> DeclaresKey(e.foreignKeys[i], n.foreignKeys[i]))
    && FieldsConsistent(n)
  }

  ghost predicate IsField(n: Entity, name: string) { exists i :: 0 <= i < |n.fields| && n.fields[i].name == name }

  /** Field names differ, and indexes and keys are over fields of the entity. */
  ghost predicate FieldsConsistent(n: Entity) {
    && (forall i, j :: 0 <= i < j < |n.fields| ==> n.fields[i].name != n.fields[j].name)
    && (forall x :: x in n.indexes ==> IndexOver(n, x)) && (forall k :: k in n.foreignKeys ==> IsField(n, k.field))
  }

  ghost predicate IndexOver(n: Entity, x: Index) {
    TableName(x.name) && |x.fields| > 0 && forall f :: f in x.fields ==> IsField(n, f)
  }

  lemma FieldMember(n: Entity, name: string)
    ensures name in FieldNames(n.fields) <==> IsField(n, name)
  {
    if name in FieldNames(n.fields) {
      var i :| 0 <= i < |FieldNames(n.fields)| && FieldNames(n.fields)[i] == name;
      assert n.fields[i].name == name;
    }
    if IsField(n, name) {
      var i :| 0 <= i < |n.fields| && n.fields[i].name == name;
      assert FieldNames(n.fields)[i] == name;
    }
  }

  lemma EntityOkIff(n: Entity)
    ensures EntityOk(n) <==>
      TypeName(n.name) && TableName(n.table) && n.fields != [] && FieldsConsistent(n)
  {
    forall name ensures name in FieldNames(n.fields) <==> IsField(n, name) { FieldMember(n, name); }
    assert NoRepeats(FieldNames(n.fields)) <==>
      forall i, j :: 0 <= i < j < |n.fields| ==> n.fields[i].name != n.fields[j].name by {
      assert forall i :: 0 <= i < |n.fields| ==> FieldNames(n.fields)[i] == n.fields[i].name;
    }
    forall x ensures IndexOk((set f | f in FieldNames(n.fields)), x) <==> IndexOver(n, x) { IndexIff(n, x); }
  }

  lemma IndexIff(n: Entity, x: Index)
    ensures IndexOk((set f | f in FieldNames(n.fields)), x) <==> IndexOver(n, x)
  {
    forall f ensures f in FieldNames(n.fields) <==> IsField(n, f) { FieldMember(n, f); }
  }

  lemma FieldsIff(e: Entity, fields: seq<Field>)
    ensures NormAll(NormField, e.fields) == Some(fields) <==>
      |fields| == |e.fields| && forall i :: 0 <= i < |e.fields| ==> DeclaresField(e.fields[i], fields[i])
  {
    NormAllIff(NormField, e.fields, fields);
    forall i | 0 <= i < |e.fields| && i < |fields|
      ensures NormField(e.fields[i]) == Some(fields[i]) <==> DeclaresField(e.fields[i], fields[i])
    {
      FieldIff(e.fields[i], fields[i]);
    }
  }

  lemma AllKeysIff(e: Entity, keys: seq<ForeignKey>)
    ensures NormAll(NormForeignKey, e.foreignKeys) == Some(keys) <==>
      |keys| == |e.foreignKeys| && forall i :: 0 <= i < |e.foreignKeys| ==> DeclaresKey(e.foreignKeys[i], keys[i])
  {
    NormAllIff(NormForeignKey, e.foreignKeys, keys);
    forall i | 0 <= i < |e.foreignKeys| && i < |keys|
      ensures NormForeignKey(e.foreignKeys[i]) == Some(keys[i]) <==> DeclaresKey(e.foreignKeys[i], keys[i])
    {
      ForeignKeyIff(e.foreignKeys[i], keys[i]);
    }
  }

  /** An entity is accepted, and becomes `n`, exactly when `n` says what it declares. */
  lemma EntityIff(e: Entity, n: Entity)
    ensures NormEntity(e) == Some(n) <==> DeclaresEntity(e, n)
  {
    EntityOkIff(n);
    FieldsIff(e, n.fields);
    AllKeysIff(e, n.foreignKeys);
    PartsIff(e, n);
  }

  lemma PartsIff(e: Entity, n: Entity)
    ensures NormEntity(e) == Some(n) <==>
      && NormAll(NormField, e.fields) == Some(n.fields) && NormAll(NormForeignKey, e.foreignKeys) == Some(n.foreignKeys)
      && n.name == Trim(e.name) && n.table == Trim(e.table) && n.primary == e.primary && n.indexes == e.indexes
      && EntityOk(n)
  {
  }
}
