/** `normalizeAPIParameter`, `normalizeAPIField`, `normalizeIdempotency` and one round of the loop in
    `normalizeAPIOperations`. */
module NormalOperations {
  import opened Options
  import opened SchemaTypes
  import opened Text
  import opened Uniques
  import opened PolicyRules
  import opened ApiPaths
  import opened Normalizers

  // ---------------------------------------------------------------- parameters and body fields

  predicate ValidType(kind: string) { kind == "string" || kind == "integer" || kind == "boolean" || kind == "array" }

  predicate ValidFormat(kind: string, format: string) {
    match kind
    case "string" => format == "" || format == "date" || format == "date-time" || format == "binary"
    case "integer" => format == "" || format == "int32" || format == "int64" || format == "uint64"
    case "boolean" => format == ""
    case "array" => format == ""
    case _ => false
  }

  /** Enumerated values: trimmed, none empty, none twice, only for strings. */
  predicate EnumOk(kind: string, enum: seq<string>) {
    enum != [] ==> kind == "string" && NoRepeats(enum) && forall v :: v in enum ==> v != ""
  }

  predicate BoundsOk(kind: string, minimum: Option<int>, maximum: Option<int>, maxLength: Option<int>) {
    && (minimum.Some? || maximum.Some? ==> kind == "integer")
    && (minimum.Some? && maximum.Some? ==> minimum.value <= maximum.value)
    && (maxLength.Some? ==> maxLength.value >= 1 && kind == "string")
  }

  function CleanParameter(p: APIParameter): APIParameter {
    p.(name := Trim(p.name), kind := LowerTrim(p.kind), format := LowerTrim(p.format), enum := Trims(p.enum))
  }

  predicate ParameterOk(p: APIParameter) {
    && ValidType(p.kind) && ValidFormat(p.kind, p.format) && EnumOk(p.kind, p.enum)
    && BoundsOk(p.kind, p.minimum, p.maximum, p.maxLength)
  }

  function NormHeader(p: APIParameter): Option<APIParameter> {
    var q := CleanParameter(p);
    if HeaderName(q.name) && ParameterOk(q) then Some(q) else None
  }

  function NormQuery(p: APIParameter): Option<APIParameter> {
    var q := CleanParameter(p);
    if TableName(q.name) && ParameterOk(q) then Some(q) else None
  }

  lemma CleanTwice(p: APIParameter)
    ensures CleanParameter(CleanParameter(p)) == CleanParameter(p)
  {
    TrimTwice(p.name);
    LowerTrimTwice(p.kind);
    LowerTrimTwice(p.format);
    TrimsTwice(p.enum);
  }

  lemma ParametersSettle()
    ensures Settles(NormHeader) && Settles(NormQuery)
  {
    forall p | NormHeader(p).Some? ensures NormHeader(NormHeader(p).value) == NormHeader(p) { CleanTwice(p); }
    forall p | NormQuery(p).Some? ensures NormQuery(NormQuery(p).value) == NormQuery(p) { CleanTwice(p); }
  }

  function CleanField(f: APIField): APIField {
    f.(name := Trim(f.name), kind := LowerTrim(f.kind), format := LowerTrim(f.format), items := LowerTrim(f.items),
        enum := Trims(f.enum))
  }

  predicate FieldOk(f: APIField) {
    && TableName(f.name) && ValidType(f.kind) && ValidFormat(f.kind, f.format) && EnumOk(f.kind, f.enum)
    && (if f.kind == "array" then f.items != "array" && ValidType(f.items) else f.items == "")
    && BoundsOk(f.kind, f.minimum, f.maximum, f.maxLength)
  }

  function NormBodyField(f: APIField): Option<APIField> { if FieldOk(CleanField(f)) then Some(CleanField(f)) else None }

  lemma CleanFieldTwice(f: APIField)
    ensures CleanField(CleanField(f)) == CleanField(f)
  {
    TrimTwice(f.name);
    LowerTrimTwice(f.kind);
    LowerTrimTwice(f.format);
    LowerTrimTwice(f.items);
    TrimsTwice(f.enum);
  }

  lemma BodyFieldsSettle()
    ensures Settles(NormBodyField)
  {
    forall f | NormBodyField(f).Some? ensures NormBodyField(NormBodyField(f).value) == NormBodyField(f) {
      CleanFieldTwice(f);
    }
  }

  function NormBody(body: Option<APIObject>): Option<Option<APIObject>> {
    if body.None? then Some(None)
    else
      var fields := NormAll(NormBodyField, body.value.fields);
      if body.value.ref != "" && (body.value.fields != [] || !TypeName(body.value.ref)) then None
      else if fields.None? then None
      else Some(Some(APIObject(body.value.ref, fields.value)))
  }

  lemma NormBodyTwice(body: Option<APIObject>)
    requires NormBody(body).Some?
    ensures NormBody(NormBody(body).value) == NormBody(body)
  {
    if body.Some? {
      BodyFieldsSettle();
      NormAllSettles(NormBodyField, body.value.fields);
      NormAllEach(NormBodyField, body.value.fields);
    }
  }

  // ---------------------------------------------------------------- the idempotency key header

  const KEY := "Idempotency-Key"

  /** `strings.EqualFold`, for the letters of ASCII. */
  predicate EqualFold(a: string, b: string) { ToLower(a) == ToLower(b) }

  function FirstKey(hs: seq<APIParameter>): (i: nat)
    ensures i <= |hs| && (i < |hs| ==> EqualFold(hs[i].name, KEY))
    ensures forall j :: 0 <= j < i ==> !EqualFold(hs[j].name, KEY)
  {
    if hs == [] || EqualFold(hs[0].name, KEY) then 0 else 1 + FirstKey(hs[1..])
  }

  function KeyHeader(h: APIParameter): APIParameter { h.(name := KEY, maxLength := Some(128)) }

  const NEW_KEY := APIParameter(KEY, "string", true, "", [], None, None, Some(128))

  /** `hasIdempotencyHeader` */
  predicate RequiresKey(hs: seq<APIParameter>) {
    exists i :: 0 <= i < |hs| && hs[i].required && EqualFold(hs[i].name, KEY)
  }

  function EnsureKey(hs: seq<APIParameter>): Option<seq<APIParameter>> {
    var i := FirstKey(hs);
    if i == |hs| then Some(hs + [NEW_KEY])
    else if !hs[i].required || LowerTrim(hs[i].kind) != "string" then None
    else Some(hs[i := KeyHeader(hs[i])])
  }

  /** Headers after `normalizeIdempotency`. */
  function IdempotencyHeaders(mode: string, hs: seq<APIParameter>): Option<seq<APIParameter>> {
    if mode == "required" then EnsureKey(hs)
    else if (mode == "inherent" || mode == "none") && !RequiresKey(hs) then Some(hs)
    else None
  }

  function LowerNames(hs: seq<APIParameter>): (r: seq<string>)
    ensures |r| == |hs| && forall i :: 0 <= i < |hs| ==> r[i] == ToLower(hs[i].name)
  {
    seq(|hs|, i requires 0 <= i < |hs| => ToLower(hs[i].name))
  }

  function QueryNames(hs: seq<APIParameter>): (r: seq<string>)
    ensures |r| == |hs| && forall i :: 0 <= i < |hs| ==> r[i] == hs[i].name
  {
    seq(|hs|, i requires 0 <= i < |hs| => hs[i].name)
  }

  lemma KeyIsTrimmed()
    ensures Trim(KEY) == KEY
  {
    assert Trimmed(KEY);
    TrimOfTrimmed(KEY);
  }

  /** Some header is the required key header in its final form. */
  ghost predicate HasKeyAt(hs: seq<APIParameter>, i: nat) {
    i < |hs| && hs[i].name == KEY && hs[i].required && LowerTrim(hs[i].kind) == "string" && hs[i].maxLength == Some(128)
  }

  lemma StringIsClean()
    ensures LowerTrim("string") == "string"
  {
    assert Trimmed("string");
    TrimOfTrimmed("string");
    assert ToLower("string") == "string";
  }

  lemma EnsureKeyHas(hs: seq<APIParameter>)
    requires EnsureKey(hs).Some?
    ensures exists i :: HasKeyAt(EnsureKey(hs).value, i)
  {
    var i := FirstKey(hs);
    StringIsClean();
    assert HasKeyAt(EnsureKey(hs).value, i);
  }

  lemma CleanKeepsKey(hs: seq<APIParameter>, i: nat)
    requires HasKeyAt(hs, i) && NormAll(NormHeader, hs).Some?
    ensures HasKeyAt(NormAll(NormHeader, hs).value, i)
  {
    NormAllEach(NormHeader, hs);
    KeyIsTrimmed();
    LowerTrimTwice(hs[i].kind);
  }

  /** With names distinct up to case, the header found is the one put there before. */
  lemma EnsureKeyFixed(hs: seq<APIParameter>, i: nat)
    requires HasKeyAt(hs, i) && NoRepeats(LowerNames(hs))
    ensures EnsureKey(hs) == Some(hs)
  {
    var j := FirstKey(hs);
    assert EqualFold(hs[i].name, KEY);
    assert j <= i && LowerNames(hs)[j] == LowerNames(hs)[i];
    assert j == i;
    assert hs[i := KeyHeader(hs[i])] == hs;
  }

  // ---------------------------------------------------------------- one operation

  predicate IsWrite(m: string) { m == "POST" || m == "PUT" || m == "PATCH" || m == "DELETE" }

  const NO_VERIFICATION := "none"
  const JSON := "application/json"
  const MULTIPART := "multipart/form-data"

  /** The scalar values as they are after trimming, case folding and defaulting. */
  function CleanScalars(op: APIOperation): APIOperation {
    var method_, academic, content := UpperTrim(op.method_), LowerTrim(op.academicVerification),
        LowerTrim(op.requestContent);
    op.(operationId := Trim(op.operationId), method_ := method_, path := Trim(op.path),
        permission := Trim(op.permission),
        defaultRoles := Unique(op.defaultRoles), idempotency := LowerTrim(op.idempotency),
        academicVerification := if IsWrite(method_) && academic == "" then NO_VERIFICATION else academic,
        requestContent := if content == "" then JSON else content)
  }

  predicate ScalarsOk(op: APIOperation) {
    && TypeName(op.operationId) && HttpMethod(op.method_) && ValidOperationPath(op.path) && PermissionId(op.permission)
    && (forall r :: r in op.defaultRoles ==> PackageName(r))
    && (if IsWrite(op.method_) then op.academicVerification == "required" || op.academicVerification == NO_VERIFICATION
        else op.idempotency == "" && op.academicVerification == "")
    && (op.requestContent == JSON || op.requestContent == MULTIPART)
    && (op.requestContent == MULTIPART ==> op.body.Some?)
  }

  const DEFAULT_RESPONSES := [APIResponse(200, "success", "")]

  function WithResponses(rs: seq<APIResponse>): seq<APIResponse> { if rs == [] then DEFAULT_RESPONSES else rs }

  /** `responses` are the names of the schema's own response components. */
  predicate ResponseOk(responses: set<string>, r: APIResponse) {
    && 100 <= r.status <= 599 && (r.kind == "success" || r.kind == "error")
    && (r.ref != "" ==> TypeName(r.ref) && (responses != {} ==> r.ref in responses))
  }

  function HeadersOf(op: APIOperation): Option<seq<APIParameter>> {
    if IsWrite(op.method_) then IdempotencyHeaders(op.idempotency, op.headers) else Some(op.headers)
  }

  function NormParameters(headers: seq<APIParameter>, query: seq<APIParameter>)
    : Option<(seq<APIParameter>, seq<APIParameter>)>
  {
    var hs, qs := NormAll(NormHeader, headers), NormAll(NormQuery, query);
    if hs.None? || qs.None? || !NoRepeats(LowerNames(hs.value)) || !NoRepeats(QueryNames(qs.value)) then None
    else Some((hs.value, qs.value))
  }

  function NormOperation(responses: set<string>, op: APIOperation): Option<APIOperation> {
    var c := CleanScalars(op);
    if !ScalarsOk(c) || HeadersOf(c).None? then None
    else
      var parameters, body := NormParameters(HeadersOf(c).value, c.query), NormBody(c.body);
      if parameters.None? || body.None? then None
      else if exists r :: r in WithResponses(c.responses) && !ResponseOk(responses, r) then None
      else Some(c.(headers := parameters.value.0, query := parameters.value.1, body := body.value,
          responses := WithResponses(c.responses)))
  }

  // ---------------------------------------------------------------- the second time

  lemma NoneIsClean()
    ensures LowerTrim(NO_VERIFICATION) == NO_VERIFICATION
  {
    assert Trimmed(NO_VERIFICATION);
    TrimOfTrimmed(NO_VERIFICATION);
    assert ToLower(NO_VERIFICATION) == NO_VERIFICATION;
  }

  lemma JsonIsClean()
    ensures LowerTrim(JSON) == JSON
  {
    assert Trimmed(JSON);
    TrimOfTrimmed(JSON);
    assert ToLower(JSON) == JSON;
  }

  lemma ScalarsTwice(op: APIOperation)
    ensures CleanScalars(CleanScalars(op)) == CleanScalars(op)
  {
    TrimTwice(op.operationId);
    UpperTrimTwice(op.method_);
    TrimTwice(op.path);
    TrimTwice(op.permission);
    UniqueTwice(op.defaultRoles);
    LowerTrimTwice(op.idempotency);
    LowerTrimTwice(op.academicVerification);
    LowerTrimTwice(op.requestContent);
    NoneIsClean();
    JsonIsClean();
  }

  lemma ScalarsIgnoreRest(op: APIOperation, hs: seq<APIParameter>, qs: seq<APIParameter>, body: Option<APIObject>,
      rs: seq<APIResponse>)
    requires body.Some? == op.body.Some?
    ensures var n := op.(headers := hs, query := qs, body := body, responses := rs);
      && CleanScalars(n) == CleanScalars(op).(headers := hs, query := qs, body := body, responses := rs)
      && (ScalarsOk(n) <==> ScalarsOk(op))
  {
  }

  lemma ParametersTwice(headers: seq<APIParameter>, query: seq<APIParameter>)
    requires NormParameters(headers, query).Some?
    ensures var r := NormParameters(headers, query).value; NormParameters(r.0, r.1) == Some(r)
  {
    ParametersSettle();
    NormAllSettles(NormHeader, headers);
    NormAllSettles(NormQuery, query);
  }

  /** An operation that opted out of keys but declares a required key header. */
  ghost predicate HidesKey(op: APIOperation) {
    IsWrite(op.method_) && (op.idempotency == "inherent" || op.idempotency == "none") && RequiresKey(op.headers)
  }

  lemma HeadersTwice(c: APIOperation, n: APIOperation)
    requires HeadersOf(c).Some? && NormAll(NormHeader, HeadersOf(c).value).Some?
    requires n.method_ == c.method_ && n.idempotency == c.idempotency
        && n.headers == NormAll(NormHeader, HeadersOf(c).value).value
    requires NoRepeats(LowerNames(n.headers))
    ensures HeadersOf(n) == if HidesKey(n) then None else Some(n.headers)
  {
    if IsWrite(c.method_) && c.idempotency == "required" {
      EnsureKeyHas(c.headers);
      var i: nat :| HasKeyAt(HeadersOf(c).value, i);
      CleanKeepsKey(HeadersOf(c).value, i);
      EnsureKeyFixed(n.headers, i);
    }
  }

  /** The scalar values of an accepted operation are settled. */
  lemma AcceptedScalars(responses: set<string>, op: APIOperation)
    requires NormOperation(responses, op).Some?
    ensures var n := NormOperation(responses, op).value;
      CleanScalars(n) == n && ScalarsOk(n) && WithResponses(n.responses) == n.responses
  {
    var c, n := CleanScalars(op), NormOperation(responses, op).value;
    ScalarsTwice(op);
    ScalarsIgnoreRest(c, n.headers, n.query, n.body, n.responses);
  }

  /** So are its parameters and its body. */
  lemma AcceptedParts(responses: set<string>, op: APIOperation)
    requires NormOperation(responses, op).Some?
    ensures var n := NormOperation(responses, op).value;
      && NormParameters(n.headers, n.query) == Some((n.headers, n.query)) && NormBody(n.body) == Some(n.body)
      && HeadersOf(n) == if HidesKey(n) then None else Some(n.headers)
  {
    var c, n := CleanScalars(op), NormOperation(responses, op).value;
    ParametersTwice(HeadersOf(c).value, c.query);
    NormBodyTwice(c.body);
    HeadersTwice(c, n);
  }

  /** An accepted operation is left alone the second time exactly when it does not hide a key; one
      that does is refused. */
  lemma OperationTwice(responses: set<string>, op: APIOperation)
    requires NormOperation(responses, op).Some?
    ensures var n := NormOperation(responses, op).value;
      NormOperation(responses, n) == if HidesKey(n) then None else Some(n)
  {
    AcceptedScalars(responses, op);
    AcceptedParts(responses, op);
  }

  lemma {:induction false} KeyWasRequired(hs: seq<APIParameter>)
    requires NormAll(NormHeader, hs).Some? && RequiresKey(NormAll(NormHeader, hs).value)
    requires forall h :: h in hs ==> Trim(h.name) == h.name
    ensures RequiresKey(hs)
  {
    NormAllEach(NormHeader, hs);
    var ns := NormAll(NormHeader, hs).value;
    var i :| 0 <= i < |ns| && ns[i].required && EqualFold(ns[i].name, KEY);
    assert hs[i] in hs;
    assert hs[i].required && EqualFold(hs[i].name, KEY);
  }

  /** Header names without surrounding space hide no key. */
  lemma TrimmedNamesHideNothing(responses: set<string>, op: APIOperation)
    requires NormOperation(responses, op).Some?
    requires forall h :: h in op.headers ==> Trim(h.name) == h.name
    ensures !HidesKey(NormOperation(responses, op).value)
  {
    var c := CleanScalars(op);
    var hs := HeadersOf(c).value;
    if IsWrite(c.method_) && (c.idempotency == "inherent" || c.idempotency == "none") {
      assert hs == op.headers && !RequiresKey(hs);
      if RequiresKey(NormAll(NormHeader, hs).value) { KeyWasRequired(hs); }
    }
  }
}
