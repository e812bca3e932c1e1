/** Two accepted schemas that a second normalisation refuses: neither condition of idempotence can be
    dropped. */
module NormalizeLimits {
  import opened Options
  import opened SchemaTypes
  import opened Text
  import opened Uniques
  import opened PolicyRules
  import opened ApiPaths
  import opened Normalizers
  import opened NormalEntities
  import opened NormalOperations
  import opened Normalize

  const COLUMN := Field("cd", "", "text", true, 0, false, false, "", "", "", "", "")
  const ENTITY := Entity("Ab", "ab", true, [COLUMN], [], [])

  function SchemaWith(ops: seq<APIOperation>): Schema { Schema(1, "ab", ENTITY, [], [], [], ops, map[]) }

  lemma Words()
    ensures Trim("Ab") == "Ab" && Trim("ab") == "ab" && Trim("cd") == "cd" && Trim("") == "" && LowerTrim("") == ""
    ensures LowerTrim("text") == "text"
    ensures TypeName("Ab") && TableName("ab") && TableName("cd") && PackageName("ab") && !ReservedName("cd")
  {
    TrimOfTrimmed("Ab");
    TrimOfTrimmed("ab");
    TrimOfTrimmed("cd");
    TrimOfTrimmed("text");
    assert ToLower("text") == "text";
  }

  lemma ModuleName()
    ensures Trim("ab") == "ab" && PackageName("ab")
  {
    TrimOfTrimmed("ab");
  }

  lemma ColumnAccepted()
    ensures NormField(COLUMN).Some? && NormField(COLUMN).value.name == "cd"
  {
    Words();
  }

  lemma EntityAccepted()
    ensures NormEntity(ENTITY).Some?
  {
    Words();
    ColumnAccepted();
    var fields := NormAll(NormField, [COLUMN]);
    NormAllEach(NormField, [COLUMN]);
    assert FieldNames(fields.value) == ["cd"];
    assert NormAll(NormForeignKey, []) == Some([]);
  }

  lemma EntityPartAccepted(ops: seq<APIOperation>)
    ensures NormEntity(ENTITY).Some?
    ensures NormEntityPart(SchemaWith(ops)) == Some(SchemaWith(ops).(entity := NormEntity(ENTITY).value))
  {
    EntityAccepted();
  }

  lemma NothingDeclared()
    ensures NormCrud([]) == Some([]) && NormPermissions([]) == Some([])
  {
    assert LowerTrims([]) == [];
    assert NormAll(NormPermission, []) == Some([]);
  }

  lemma ApiPartAccepted(s: Schema)
    requires s.crud == [] && s.permissions == [] && s.components == map[] && NormOperations({}, s.operations).Some?
    ensures NormApiPart(s).Some? && NormApiPart(s).value.operations == NormOperations({}, s.operations).value
  {
    NothingDeclared();
    assert ComponentsOk(s.components) && ResponseNames(s.components) == {};
  }

  /** The operations of such a schema decide whether it is accepted. */
  lemma SchemaAccepted(ops: seq<APIOperation>)
    requires NormOperations({}, ops).Some?
    ensures NormSchema(SchemaWith(ops)).Some?
    ensures NormSchema(SchemaWith(ops)).value.operations == NormOperations({}, ops).value
  {
    ModuleName();
    assert SchemaWith(ops).(module_ := Trim("ab")) == SchemaWith(ops);
    EntityPartAccepted(ops);
    ApiPartAccepted(NormEntityPart(SchemaWith(ops)).value);
  }

  // ---------------------------------------------------------------- one permission name, two paths

  lemma SettledAccepted(ops: seq<APIOperation>)
    requires DistinctRoutes(ops) && forall i :: 0 <= i < |ops| ==> NormOperation({}, ops[i]) == Some(ops[i])
    ensures NormOperations({}, ops).Some? && forall op :: op in ops ==> op in NormOperations({}, ops).value
  {
    NormAllFixed(op => NormOperation({}, op), ops);
    AcceptedSorted(ops);
  }

  lemma DifferentRoutes(a: APIOperation, b: APIOperation)
    requires a.operationId != b.operationId && a.path != b.path
    ensures DistinctRoutes([a, b])
  {
  }

  lemma PairAccepted(a: APIOperation, b: APIOperation)
    requires NormOperation({}, a) == Some(a) && NormOperation({}, b) == Some(b)
    requires a.operationId != b.operationId && a.path != b.path
    ensures NormOperations({}, [a, b]).Some? && a in NormOperations({}, [a, b]).value
        && b in NormOperations({}, [a, b]).value
  {
    var ops := [a, b];
    DifferentRoutes(a, b);
    assert ops[0] == a && ops[1] == b;
    SettledAccepted(ops);
  }

  lemma SharedNameDecidesNothing(ops: seq<APIOperation>, a: APIOperation, b: APIOperation)
    requires a in ops && b in ops && a.permission == b.permission && a.path != b.path
    ensures !NamesDecide(ops)
  {
    var i :| 0 <= i < |ops| && ops[i] == a;
    var j :| 0 <= j < |ops| && ops[j] == b;
  }

  /** A permission name shared by two paths is accepted once and refused the next time, whatever the
      two operations are. */
  lemma SharedNameIsRefusedLater(a: APIOperation, b: APIOperation)
    requires NormOperation({}, a) == Some(a) && NormOperation({}, b) == Some(b)
    requires a.operationId != b.operationId && a.path != b.path && a.permission == b.permission
    ensures NormSchema(SchemaWith([a, b])).Some?
    ensures NormSchema(NormSchema(SchemaWith([a, b])).value).None?
  {
    var s := SchemaWith([a, b]);
    PairAccepted(a, b);
    SchemaAccepted([a, b]);
    SharedNameDecidesNothing(NormSchema(s).value.operations, a, b);
    RefusedLater(s);
  }

  lemma RefusedLater(s: Schema)
    requires NormSchema(s).Some? && !NamesDecide(NormSchema(s).value.operations)
    ensures NormSchema(NormSchema(s).value).None?
  {
    var e := NormEntityPart(s.(module_ := Trim(s.module_))).value;
    NormalizeTwice(s);
    NamesUndecided(e);
  }

  lemma NamesUndecided(e: Schema)
    requires NormApiPart(e).Some? && !NamesDecide(NormApiPart(e).value.operations)
    ensures !DistinctNames(NormApiPart(e).value.permissions)
  {
    AcceptedOperations(ResponseNames(e.components), e.operations);
    DistinctNamesIff(NormApiPart(e).value.operations);
  }

  // ---------------------------------------------------------------- two such operations

  function Reader(id: string, path: string): APIOperation {
    APIOperation(id, "GET", path, "a:b", [], "", "", JSON, "", [], [], None, DEFAULT_RESPONSES)
  }

  lemma PathParts(last: string)
    ensures Join(["api", "v1", last], '/') == "api/v1/" + last
  {
    var parts := ["api", "v1", last];
    assert parts[1..] == ["v1", last] && parts[1..][1..] == [last];
    assert Join([last], '/') == last;
    assert Join(["v1", last], '/') == "v1/" + last;
  }

  lemma PathAccepted(last: string)
    requires LiteralSegment(last)
    ensures ValidOperationPath("/api/v1/" + last)
  {
    var path := "/api/v1/" + last;
    var parts := ["api", "v1", last];
    assert '/' !in last;
    PathParts(last);
    assert path[1..] == "api/v1/" + last;
    SplitOfJoin(parts, '/');
    assert path[..8] == PREFIX;
    assert path[|path| - 1] == last[|last| - 1];
  }

  lemma PathTrimmed(last: string)
    requires last != "" && !IsSpace(last[|last| - 1])
    ensures Trim("/api/v1/" + last) == "/api/v1/" + last
  {
    var path := "/api/v1/" + last;
    assert path[|path| - 1] == last[|last| - 1];
    TrimOfTrimmed(path);
  }

  lemma GetIsClean()
    ensures UpperTrim("GET") == "GET" && HttpMethod("GET") && !IsWrite("GET")
  {
    TrimOfTrimmed("GET");
    assert ToUpper("GET") == "GET";
  }

  lemma NameAccepted()
    ensures Trim("a:b") == "a:b" && PermissionId("a:b")
  {
    TrimOfTrimmed("a:b");
    var parts := ["a", "b"];
    assert parts[1..] == ["b"];
    assert Join(parts, ':') == "a:b";
    SplitOfJoin(parts, ':');
  }

  lemma ReaderScalars(id: string, path: string)
    requires TypeName(id) && Trim(id) == id && ValidOperationPath(path) && Trim(path) == path
    ensures CleanScalars(Reader(id, path)) == Reader(id, path) && ScalarsOk(Reader(id, path))
  {
    Words();
    JsonIsClean();
    GetIsClean();
    NameAccepted();
    assert Unique([]) == [];
  }

  lemma NoParameters()
    ensures NormParameters([], []) == Some(([], []))
  {
    assert NormAll(NormHeader, []) == Some([]) && NormAll(NormQuery, []) == Some([]);
    assert LowerNames([]) == [] && QueryNames([]) == [];
  }

  lemma DefaultResponses(r: APIResponse)
    requires r in DEFAULT_RESPONSES
    ensures ResponseOk({}, r)
  {
  }

  lemma ReaderAccepted(id: string, path: string)
    requires TypeName(id) && Trim(id) == id && ValidOperationPath(path) && Trim(path) == path
    ensures NormOperation({}, Reader(id, path)) == Some(Reader(id, path))
  {
    var op := Reader(id, path);
    ReaderScalars(id, path);
    NoParameters();
    GetIsClean();
    forall r | r in WithResponses(op.responses) ensures ResponseOk({}, r) { DefaultResponses(r); }
    assert HeadersOf(op) == Some([]) && NormBody(None) == Some(None);
  }

  const PATH_X := "/api/v1/" + "x"
  const PATH_Y := "/api/v1/" + "y"

  lemma PathsDiffer()
    ensures PATH_X != PATH_Y && "Ab" != "Cd" && TypeName("Cd") && Trim("Cd") == "Cd"
  {
    assert PATH_X[8] == 'x' && PATH_Y[8] == 'y' && "Ab"[0] == 'A' && "Cd"[0] == 'C';
    TrimOfTrimmed("Cd");
  }

  lemma FirstReader()
    ensures NormOperation({}, Reader("Ab", PATH_X)) == Some(Reader("Ab", PATH_X))
  {
    Words();
    PathAccepted("x");
    PathTrimmed("x");
    ReaderAccepted("Ab", PATH_X);
  }

  lemma SecondReader()
    ensures NormOperation({}, Reader("Cd", PATH_Y)) == Some(Reader("Cd", PATH_Y))
  {
    PathsDiffer();
    PathAccepted("y");
    PathTrimmed("y");
    ReaderAccepted("Cd", PATH_Y);
  }

  /** Such a schema exists: two reads of different paths under the permission a:b. */
  lemma SharedNameExample()
    ensures var s := SchemaWith([Reader("Ab", PATH_X), Reader("Cd", PATH_Y)]);
      NormSchema(s).Some? && NormSchema(NormSchema(s).value).None?
  {
    PathsDiffer();
    FirstReader();
    SecondReader();
    SharedNameIsRefusedLater(Reader("Ab", PATH_X), Reader("Cd", PATH_Y));
  }

  // ---------------------------------------------------------------- a key header written with a space

  lemma AloneAccepted(op: APIOperation, n: APIOperation)
    requires NormOperation({}, op) == Some(n)
    ensures NormOperations({}, [op]).Some? && n in NormOperations({}, [op]).value
  {
    var f, ops := (x: APIOperation) => NormOperation({}, x), [op];
    assert f(ops[0]) == Some(n);
    NormAllEach(f, ops);
    var each := NormAll(f, ops).value;
    assert each == [n] && DistinctRoutes(each);
    AcceptedSorted(each);
  }

  /** An operation without keys whose required key header only shows once its name is trimmed is
      accepted once and refused the next time. */
  lemma HiddenKeyIsRefusedLater(op: APIOperation, n: APIOperation)
    requires NormOperation({}, op) == Some(n) && HidesKey(n)
    ensures NormSchema(SchemaWith([op])).Some?
    ensures NormSchema(NormSchema(SchemaWith([op])).value).None?
  {
    AloneAccepted(op, n);
    SchemaAccepted([op]);
    NormalizeTwice(SchemaWith([op]));
  }

  const SPACED := APIParameter(" " + KEY, "string", true, "", [], None, None, None)

  lemma SpacedTrims()
    ensures Trim(" " + KEY) == KEY && !EqualFold(" " + KEY, KEY)
  {
    var s := " " + KEY;
    assert IsSpace(s[0]) && s[1..] == KEY;
    assert TrimLeft(s) == TrimLeft(KEY);
    KeyIsTrimmed();
    assert |ToLower(s)| == |ToLower(KEY)| + 1;
  }

  lemma KeyIsHeaderName()
    ensures HeaderName(KEY)
  {
  }

  lemma SpacedAccepted()
    ensures NormHeader(SPACED) == Some(SPACED.(name := KEY))
  {
    SpacedTrims();
    KeyIsHeaderName();
    StringIsClean();
    Words();
    assert Trims([]) == [];
  }

  lemma SpacedParameters()
    ensures NormParameters([SPACED], []) == Some(([SPACED.(name := KEY)], []))
    ensures !RequiresKey([SPACED]) && RequiresKey([SPACED.(name := KEY)])
  {
    var hs := [SPACED];
    SpacedAccepted();
    NormAllEach(NormHeader, hs);
    assert NormAll(NormHeader, hs).value == [SPACED.(name := KEY)];
    assert NormAll(NormQuery, []) == Some([]) && QueryNames([]) == [];
    SpacedTrims();
    assert [SPACED.(name := KEY)][0].required;
  }

  function Writer(path: string): APIOperation {
    APIOperation("Ab", "POST", path, "a:b", [], "none", "none", JSON, "", [SPACED], [], None, DEFAULT_RESPONSES)
  }

  lemma PostIsClean()
    ensures UpperTrim("POST") == "POST" && HttpMethod("POST") && IsWrite("POST")
  {
    TrimOfTrimmed("POST");
    assert ToUpper("POST") == "POST";
  }

  lemma WriterScalars(path: string)
    requires ValidOperationPath(path) && Trim(path) == path
    ensures CleanScalars(Writer(path)) == Writer(path) && ScalarsOk(Writer(path))
  {
    Words();
    JsonIsClean();
    NoneIsClean();
    PostIsClean();
    NameAccepted();
    assert Unique([]) == [];
  }

  lemma WriterHeaders(path: string)
    ensures HeadersOf(Writer(path)) == Some([SPACED])
  {
    SpacedParameters();
    PostIsClean();
  }

  lemma WriterAccepted(path: string)
    requires ValidOperationPath(path) && Trim(path) == path
    ensures NormOperation({}, Writer(path)) == Some(Writer(path).(headers := [SPACED.(name := KEY)]))
  {
    var op := Writer(path);
    WriterScalars(path);
    WriterHeaders(path);
    SpacedParameters();
    forall r | r in WithResponses(op.responses) ensures ResponseOk({}, r) { DefaultResponses(r); }
    assert NormBody(None) == Some(None);
  }

  /** Such a schema exists: a write that opts out of keys and declares " Idempotency-Key". */
  lemma HiddenKeyExample()
    ensures var s := SchemaWith([Writer(PATH_X)]);
      NormSchema(s).Some? && NormSchema(NormSchema(s).value).None?
  {
    PathAccepted("x");
    PathTrimmed("x");
    WriterAccepted(PATH_X);
    SpacedParameters();
    PostIsClean();
    HiddenKeyIsRefusedLater(Writer(PATH_X), Writer(PATH_X).(headers := [SPACED.(name := KEY)]));
  }
}
