/** What an accepted operation says, and which operations are accepted, in terms of the declaration as it
    was written. */
module DeclaredOperations {
  import opened Options
  import opened SchemaTypes
  import opened Text
  import opened Uniques
  import opened ApiPaths
  import opened PolicyRules
  import opened Normalizers
  import opened NormalOperations

  // ---------------------------------------------------------------- values

  /** The value written, in small letters; a default if there is none. */
  ghost predicate WordOr(written: string, fallback: string, word: string) {
    word == if AllSpace(written) then fallback else ToLower(Trim(written))
  }

  lemma WordOrIff(written: string, fallback: string, word: string)
    ensures WordOr(written, fallback, word) <==>
      word == if LowerTrim(written) == "" then fallback else LowerTrim(written)
  {
    TrimIsEmptyIff(written);
    assert LowerTrim(written) == "" <==> Trim(written) == "";
  }

  /** The formats each type may have. */
  const FORMATS := {("string", ""), ("string", "date"), ("string", "date-time"), ("string", "binary"),
                    ("integer", ""), ("integer", "int32"), ("integer", "int64"), ("integer", "uint64"),
                    ("boolean", ""), ("array", "")}

  lemma FormatsIff(kind: string, format: string)
    ensures (kind, format) in FORMATS <==> ValidType(kind) && ValidFormat(kind, format)
  {
  }

  /** Enumerated values are the trimmed ones: of strings only, none empty, no two the same. */
  ghost predicate DeclaresEnum(written: seq<string>, kind: string, values: seq<string>) {
    && |values| == |written| && (|values| > 0 ==> kind == "string")
    && (forall i :: 0 <= i < |written| ==> values[i] == Trim(written[i]) && !AllSpace(written[i]))
    && (forall i, j :: 0 <= i < j < |values| ==> values[i] != values[j])
  }

  lemma EnumIff(written: seq<string>, kind: string, values: seq<string>)
    ensures DeclaresEnum(written, kind, values) <==> values == Trims(written) && EnumOk(kind, values)
  {
    forall i | 0 <= i < |written| ensures Trim(written[i]) == "" <==> AllSpace(written[i]) {
      TrimIsEmptyIff(written[i]);
    }
    if values == Trims(written) && EnumOk(kind, values) {
      forall i | 0 <= i < |written| ensures !AllSpace(written[i]) { assert values[i] in values; }
    }
  }

  /** Bounds are for integers and in order, a length is for strings and positive. */
  ghost predicate Bounded(kind: string, minimum: Option<int>, maximum: Option<int>, maxLength: Option<int>) {
    && (kind != "integer" ==> minimum == None && maximum == None)
    && (forall a, b :: minimum == Some(a) && maximum == Some(b) ==> a <= b)
    && (maxLength == None || (kind == "string" && maxLength.value > 0))
  }

  lemma BoundsIff(kind: string, minimum: Option<int>, maximum: Option<int>, maxLength: Option<int>)
    ensures Bounded(kind, minimum, maximum, maxLength) <==> BoundsOk(kind, minimum, maximum, maxLength)
  {
  }

  // ---------------------------------------------------------------- parameters and body fields

  ghost predicate DeclaresParameter(p: APIParameter, n: APIParameter) {
    && n.name == Trim(p.name) && n.kind == ToLower(Trim(p.kind)) && n.format == ToLower(Trim(p.format))
    && n.required == p.required && n.minimum == p.minimum && n.maximum == p.maximum && n.maxLength == p.maxLength
    && (n.kind, n.format) in FORMATS && DeclaresEnum(p.enum, n.kind, n.enum)
    && Bounded(n.kind, n.minimum, n.maximum, n.maxLength)
  }

  lemma ParameterIff(p: APIParameter, n: APIParameter)
    ensures DeclaresParameter(p, n) <==> n == CleanParameter(p) && ParameterOk(n)
  {
    FormatsIff(n.kind, n.format);
    EnumIff(p.enum, n.kind, n.enum);
    BoundsIff(n.kind, n.minimum, n.maximum, n.maxLength);
  }

  lemma HeaderIff(p: APIParameter, n: APIParameter)
    ensures NormHeader(p) == Some(n) <==> DeclaresParameter(p, n) && HeaderName(n.name)
    ensures NormQuery(p) == Some(n) <==> DeclaresParameter(p, n) && TableName(n.name)
  {
    ParameterIff(p, n);
  }

  ghost predicate DeclaresBodyField(f: APIField, n: APIField) {
    && n.name == Trim(f.name) && TableName(n.name) && n.kind == ToLower(Trim(f.kind))
    && n.format == ToLower(Trim(f.format)) && n.items == ToLower(Trim(f.items))
    && n.required == f.required && n.minimum == f.minimum && n.maximum == f.maximum && n.maxLength == f.maxLength
    && (n.kind, n.format) in FORMATS && DeclaresEnum(f.enum, n.kind, n.enum)
    && n.items in (if n.kind == "array" then {"string", "integer", "boolean"} else {""})
    && Bounded(n.kind, n.minimum, n.maximum, n.maxLength)
  }

  lemma BodyFieldIff(f: APIField, n: APIField)
    ensures NormBodyField(f) == Some(n) <==> DeclaresBodyField(f, n)
  {
    FormatsIff(n.kind, n.format);
    EnumIff(f.enum, n.kind, n.enum);
    BoundsIff(n.kind, n.minimum, n.maximum, n.maxLength);
    assert DeclaresBodyField(f, n) <==> n == CleanField(f) && FieldOk(n);
  }

  /** A body refers to a component or lists its fields. */
  ghost predicate DeclaresBody(body: Option<APIObject>, n: Option<APIObject>) {
    if body.None? then n.None?
    else
      && n.Some? && n.value.ref == body.value.ref && |n.value.fields| == |body.value.fields|
      && (n.value.ref != "" ==> TypeName(n.value.ref) && n.value.fields == [])
      && forall i :: 0 <= i < |n.value.fields| ==> DeclaresBodyField(body.value.fields[i], n.value.fields[i])
  }

  lemma BodyIff(body: Option<APIObject>, n: Option<APIObject>)
    ensures NormBody(body) == Some(n) <==> DeclaresBody(body, n)
  {
    if body.Some? && n.Some? { BodyFieldsIff(body.value.fields, n.value.fields); }
  }

  lemma BodyFieldsIff(fs: seq<APIField>, ns: seq<APIField>)
    ensures NormAll(NormBodyField, fs) == Some(ns) <==>
      |ns| == |fs| && forall i :: 0 <= i < |ns| ==> DeclaresBodyField(fs[i], ns[i])
  {
    NormAllIff(NormBodyField, fs, ns);
    forall i | 0 <= i < |fs| && i < |ns|
      ensures NormBodyField(fs[i]) == Some(ns[i]) <==> DeclaresBodyField(fs[i], ns[i])
    {
      BodyFieldIff(fs[i], ns[i]);
    }
  }

  // ---------------------------------------------------------------- the idempotency key

  /** The header is called Idempotency-Key, in capitals or not. */
  ghost predicate IsKey(h: APIParameter) { ToLower(h.name) == "idempotency-key" }

  lemma IsKeyIff(h: APIParameter)
    ensures IsKey(h) <==> EqualFold(h.name, KEY)
  {
    assert ToLower(KEY) == "idempotency-key";
  }

  /** What becomes of the headers of an operation: of one that requires a key the first header of that name
      is completed, or one is added; of one that does not, no header may require it. */
  ghost predicate KeyRule(writes: bool, mode: string, hs: seq<APIParameter>, out: seq<APIParameter>) {
    if !writes then out == hs
    else if mode == "required" then
      if forall h :: h in hs ==> !IsKey(h) then
        out == hs + [APIParameter("Idempotency-Key", "string", true, "", [], None, None, Some(128))]
      else exists i :: FirstIsKey(hs, i) && Completes(hs, out, i)
    else (mode == "inherent" || mode == "none") && out == hs && forall h :: h in hs && IsKey(h) ==> !h.required
  }

  ghost predicate FirstIsKey(hs: seq<APIParameter>, i: nat) {
    i < |hs| && IsKey(hs[i]) && forall j :: 0 <= j < i ==> !IsKey(hs[j])
  }

  ghost predicate Completes(hs: seq<APIParameter>, out: seq<APIParameter>, i: nat)
    requires i < |hs|
  {
    && hs[i].required && ToLower(Trim(hs[i].kind)) == "string"
    && out == hs[i := hs[i].(name := "Idempotency-Key", maxLength := Some(128))]
  }

  lemma FirstKeyIff(hs: seq<APIParameter>)
    ensures if FirstKey(hs) == |hs| then forall h :: h in hs ==> !IsKey(h) else FirstIsKey(hs, FirstKey(hs))
  {
    forall h ensures IsKey(h) <==> EqualFold(h.name, KEY) { IsKeyIff(h); }
  }

  lemma EnsureKeyIff(hs: seq<APIParameter>, out: seq<APIParameter>)
    ensures EnsureKey(hs) == Some(out) <==> KeyRule(true, "required", hs, out)
  {
    var i := FirstKey(hs);
    FirstKeyIff(hs);
    if i < |hs| {
      assert hs[i] in hs;
      forall j | FirstIsKey(hs, j) ensures j == i {}
      assert EnsureKey(hs) == Some(out) <==> Completes(hs, out, i);
    }
  }

  lemma KeyRuleIff(writes: bool, mode: string, hs: seq<APIParameter>, out: seq<APIParameter>)
    ensures KeyRule(writes, mode, hs, out) <==>
      (if writes then IdempotencyHeaders(mode, hs) else Some(hs)) == Some(out)
  {
    EnsureKeyIff(hs, out);
    forall h ensures IsKey(h) <==> EqualFold(h.name, KEY) { IsKeyIff(h); }
    assert RequiresKey(hs) <==> exists h :: h in hs && IsKey(h) && h.required by {
      if h :| h in hs && IsKey(h) && h.required {
        var i :| 0 <= i < |hs| && hs[i] == h;
        assert hs[i].required && EqualFold(hs[i].name, KEY);
      }
      if RequiresKey(hs) {
        var i :| 0 <= i < |hs| && hs[i].required && EqualFold(hs[i].name, KEY);
        assert hs[i] in hs;
      }
    }
  }

  // ---------------------------------------------------------------- one operation

  ghost predicate Writes(m: string) { m in {"POST", "PUT", "PATCH", "DELETE"} }

  ghost predicate DeclaresScalars(op: APIOperation, n: APIOperation) {
    && n.operationId == Trim(op.operationId) && n.method_ == ToUpper(Trim(op.method_)) && n.path == Trim(op.path)
    && n.permission == Trim(op.permission) && n.idempotency == ToLower(Trim(op.idempotency)) && n.summary == op.summary
    && WordOr(op.requestContent, "application/json", n.requestContent)
    && WordOr(op.academicVerification, if Writes(n.method_) then "none" else "", n.academicVerification)
    && Increasing(n.defaultRoles) && (forall r :: r in n.defaultRoles <==> r != "" && Occurs(op.defaultRoles, r))
  }

  ghost predicate ScalarsAllowed(n: APIOperation) {
    && TypeName(n.operationId) && n.method_ in {"GET", "POST", "PUT", "PATCH", "DELETE"} && ValidOperationPath(n.path)
    && PermissionId(n.permission) && (forall r :: r in n.defaultRoles ==> PackageName(r))
    && (if Writes(n.method_) then n.academicVerification in {"required", "none"}
        else n.academicVerification == "" && n.idempotency == "")
    && (n.requestContent == "application/json" || (n.requestContent == "multipart/form-data" && n.body.Some?))
  }

  lemma ScalarsIff(op: APIOperation, n: APIOperation)
    ensures DeclaresScalars(op, n) <==> SameScalars(CleanScalars(op), n)
  {
    WordOrIff(op.requestContent, JSON, n.requestContent);
    WordOrIff(op.academicVerification, if Writes(n.method_) then "none" else "", n.academicVerification);
    RolesIff(op.defaultRoles, n.defaultRoles);
  }

  lemma RolesIff(written: seq<string>, roles: seq<string>)
    ensures Increasing(roles) && (forall r :: r in roles <==> r != "" && Occurs(written, r))
       <==> roles == Unique(written)
  {
    UniqueCorrect(written);
    if Increasing(roles) && (forall r :: r in roles <==> r != "" && Occurs(written, r)) {
      IncreasingIsUnique(roles, Unique(written));
    }
  }

  lemma AllowedIff(n: APIOperation)
    ensures ScalarsAllowed(n) <==> ScalarsOk(n)
  {
  }

  /** Header names differ in more than capitals, query names differ. */
  ghost predicate DeclaresParameters(hs: seq<APIParameter>, qs: seq<APIParameter>, headers: seq<APIParameter>,
                                     query: seq<APIParameter>) {
    && |headers| == |hs| && |query| == |qs|
    && (forall i :: 0 <= i < |hs| ==> DeclaresParameter(hs[i], headers[i]) && HeaderName(headers[i].name))
    && (forall i :: 0 <= i < |qs| ==> DeclaresParameter(qs[i], query[i]) && TableName(query[i].name))
    && (forall i, j :: 0 <= i < j < |headers| ==> ToLower(headers[i].name) != ToLower(headers[j].name))
    && (forall i, j :: 0 <= i < j < |query| ==> query[i].name != query[j].name)
  }

  lemma ParametersIff(hs: seq<APIParameter>, qs: seq<APIParameter>, headers: seq<APIParameter>,
                      query: seq<APIParameter>)
    ensures NormParameters(hs, qs) == Some((headers, query)) <==> DeclaresParameters(hs, qs, headers, query)
  {
    HeaderListIff(hs, headers);
    QueryListIff(qs, query);
    NamesApart(headers, query);
    ParametersParts(hs, qs, headers, query);
  }

  lemma NamesApart(headers: seq<APIParameter>, query: seq<APIParameter>)
    ensures NoRepeats(LowerNames(headers)) <==>
      forall i, j :: 0 <= i < j < |headers| ==> ToLower(headers[i].name) != ToLower(headers[j].name)
    ensures NoRepeats(QueryNames(query)) <==> forall i, j :: 0 <= i < j < |query| ==> query[i].name != query[j].name
  {
    var lower, names := LowerNames(headers), QueryNames(query);
    assert forall i :: 0 <= i < |headers| ==> lower[i] == ToLower(headers[i].name);
    assert forall i :: 0 <= i < |query| ==> names[i] == query[i].name;
  }

  lemma ParametersParts(hs: seq<APIParameter>, qs: seq<APIParameter>, headers: seq<APIParameter>,
                        query: seq<APIParameter>)
    ensures NormParameters(hs, qs) == Some((headers, query)) <==>
      NormAll(NormHeader, hs) == Some(headers) && NormAll(NormQuery, qs) == Some(query)
      && NoRepeats(LowerNames(headers)) && NoRepeats(QueryNames(query))
  {
  }

  lemma HeaderListIff(hs: seq<APIParameter>, headers: seq<APIParameter>)
    ensures NormAll(NormHeader, hs) == Some(headers) <==>
      |headers| == |hs|
      && forall i :: 0 <= i < |hs| ==> DeclaresParameter(hs[i], headers[i]) && HeaderName(headers[i].name)
  {
    NormAllIff(NormHeader, hs, headers);
    forall i | 0 <= i < |hs| && i < |headers| { HeaderIff(hs[i], headers[i]); }
  }

  lemma QueryListIff(qs: seq<APIParameter>, query: seq<APIParameter>)
    ensures NormAll(NormQuery, qs) == Some(query) <==>
      |query| == |qs|
      && forall i :: 0 <= i < |qs| ==> DeclaresParameter(qs[i], query[i]) && TableName(query[i].name)
  {
    NormAllIff(NormQuery, qs, query);
    forall i | 0 <= i < |qs| && i < |query| { HeaderIff(qs[i], query[i]); }
  }

  /** Without responses an operation answers 200; a reference is to one of the schema's own responses, if it
      has any. */
  ghost predicate DeclaresResponses(own: set<string>, rs: seq<APIResponse>, ns: seq<APIResponse>) {
    && ns == (if rs == [] then [APIResponse(200, "success", "")] else rs)
    && forall r :: r in ns ==>
         && 100 <= r.status < 600 && r.kind in {"success", "error"}
         && (r.ref == "" || (TypeName(r.ref) && (own == {} || r.ref in own)))
  }

  lemma ResponsesIff(own: set<string>, rs: seq<APIResponse>, ns: seq<APIResponse>)
    ensures DeclaresResponses(own, rs, ns) <==>
      ns == WithResponses(rs) && forall r :: r in ns ==> ResponseOk(own, r)
  {
  }

  ghost predicate DeclaresOperation(own: set<string>, op: APIOperation, n: APIOperation) {
    && DeclaresScalars(op, n) && ScalarsAllowed(n) && DeclaresBody(op.body, n.body)
    && DeclaresResponses(own, op.responses, n.responses)
    && exists hs :: KeyRule(Writes(n.method_), n.idempotency, op.headers, hs)
                    && DeclaresParameters(hs, op.query, n.headers, n.query)
  }

  lemma HeadersIff(op: APIOperation, n: APIOperation)
    ensures (exists hs :: KeyRule(Writes(n.method_), n.idempotency, op.headers, hs)
                          && DeclaresParameters(hs, op.query, n.headers, n.query)) <==>
      var headers := if IsWrite(n.method_) then IdempotencyHeaders(n.idempotency, op.headers) else Some(op.headers);
      headers.Some? && NormParameters(headers.value, op.query) == Some((n.headers, n.query))
  {
    forall hs ensures KeyRule(Writes(n.method_), n.idempotency, op.headers, hs) <==>
      (if IsWrite(n.method_) then IdempotencyHeaders(n.idempotency, op.headers) else Some(op.headers)) == Some(hs)
    {
      KeyRuleIff(Writes(n.method_), n.idempotency, op.headers, hs);
    }
    forall hs ensures NormParameters(hs, op.query) == Some((n.headers, n.query))
        <==> DeclaresParameters(hs, op.query, n.headers, n.query)
    {
      ParametersIff(hs, op.query, n.headers, n.query);
    }
  }

  /** An operation is accepted, and becomes `n`, exactly when `n` says what it declares. */
  lemma OperationIff(own: set<string>, op: APIOperation, n: APIOperation)
    ensures NormOperation(own, op) == Some(n) <==> DeclaresOperation(own, op, n)
  {
    ScalarsIff(op, n);
    AllowedIff(n);
    BodyIff(op.body, n.body);
    ResponsesIff(own, op.responses, n.responses);
    HeadersIff(op, n);
    NormOperationParts(own, op, n);
  }

  ghost predicate SameScalars(c: APIOperation, n: APIOperation) {
    n == c.(headers := n.headers, query := n.query, body := n.body, responses := n.responses)
  }

  lemma NormOperationParts(own: set<string>, op: APIOperation, n: APIOperation)
    ensures NormOperation(own, op) == Some(n) <==>
      && SameScalars(CleanScalars(op), n) && ScalarsOk(n) && NormBody(op.body) == Some(n.body)
      && n.responses == WithResponses(op.responses) && (forall r :: r in n.responses ==> ResponseOk(own, r))
      && var headers := if IsWrite(n.method_) then IdempotencyHeaders(n.idempotency, op.headers) else Some(op.headers);
         headers.Some? && NormParameters(headers.value, op.query) == Some((n.headers, n.query))
  {
    var c := CleanScalars(op);
    if NormBody(op.body) == Some(n.body) && SameScalars(c, n) { SameScalarsOk(c, n); }
  }

  lemma SameScalarsOk(c: APIOperation, n: APIOperation)
    requires SameScalars(c, n) && n.body.Some? == c.body.Some?
    ensures ScalarsOk(n) <==> ScalarsOk(c)
    ensures HeadersOf(c) == if IsWrite(n.method_) then IdempotencyHeaders(n.idempotency, c.headers) else Some(c.headers)
  {
  }
}
