/** Rows of the `casbin_rule` table: how subjects, policies and method sets are written into the
    columns and read back. */
module PolicyRules {
  import opened Options
  import opened Text
  import opened Uniques

  // ---------------------------------------------------------------- numbers in subjects

  const MAX_UINT64: nat := 0xFFFF_FFFF_FFFF_FFFF

  function Digit(d: nat): char
    requires d < 10
  {
    '0' + d as char
  }

  function FormatUint(n: nat): string {
    if n < 10 then [Digit(n)] else FormatUint(n / 10) + [Digit(n % 10)]
  }

  predicate AllDigits(s: string) { forall i :: 0 <= i < |s| ==> IsDigit(s[i]) }

  function Decimal(s: string): nat
    requires AllDigits(s)
  {
    if s == "" then 0 else 10 * Decimal(s[..|s| - 1]) + (s[|s| - 1] - '0') as nat
  }

  /** `strconv.ParseUint(s, 10, 64)`. */
  function ParseUint(s: string): Option<nat> {
    if s == "" || !AllDigits(s) || Decimal(s) > MAX_UINT64 then None else Some(Decimal(s))
  }

  lemma {:induction false} DecimalOfFormat(n: nat)
    ensures FormatUint(n) != "" && AllDigits(FormatUint(n)) && Decimal(FormatUint(n)) == n
  {
    if n < 10 {
      assert FormatUint(n)[..0] == "";
    } else {
      DecimalOfFormat(n / 10);
      var s := FormatUint(n);
      assert s[..|s| - 1] == FormatUint(n / 10);
    }
  }

  function Zeros(n: nat): string { seq(n, _ => '0') }

  lemma {:induction false} DecimalOfPadded(n: nat, s: string)
    requires AllDigits(s)
    ensures AllDigits(Zeros(n) + s) && Decimal(Zeros(n) + s) == Decimal(s)
    decreases |s| + n
  {
    var t := Zeros(n) + s;
    if s != "" {
      assert t[..|t| - 1] == Zeros(n) + s[..|s| - 1];
      DecimalOfPadded(n, s[..|s| - 1]);
    } else if n > 0 {
      assert t[..|t| - 1] == Zeros(n - 1) + "";
      DecimalOfPadded(n - 1, "");
    }
  }

  lemma {:induction false} PaddedNumeral(s: string) returns (n: nat)
    requires s != "" && AllDigits(s)
    ensures s == Zeros(n) + FormatUint(Decimal(s))
    decreases |s|
  {
    var front, d := s[..|s| - 1], (s[|s| - 1] - '0') as nat;
    assert s == front + [Digit(d)];
    if front == "" {
      n := 0;
      assert Decimal(s) == d;
    } else {
      var k := PaddedNumeral(front);
      if Decimal(front) == 0 {
        n := |front|;
        assert front == Zeros(k) + "0" == Zeros(|front|);
      } else {
        n := k;
        assert FormatUint(Decimal(s)) == FormatUint(Decimal(front)) + [Digit(d)];
      }
    }
  }

  /** Parsing accepts exactly the numerals of numbers of 64 bits, with any number of zeros in front. */
  lemma ParseUintIff(s: string, n: nat)
    ensures ParseUint(s) == Some(n) <==> n <= MAX_UINT64 && exists k: nat :: s == Zeros(k) + FormatUint(n)
  {
    DecimalOfFormat(n);
    if k: nat :| s == Zeros(k) + FormatUint(n) { DecimalOfPadded(k, FormatUint(n)); }
    if ParseUint(s) == Some(n) { var k := PaddedNumeral(s); }
  }

  const USER_PREFIX := "user:"

  function Subject(id: nat): string { USER_PREFIX + FormatUint(id) }

  function TrimUserPrefix(s: string): string { if USER_PREFIX <= s then s[|USER_PREFIX|..] else s }

  lemma SubjectInjective(a: nat, b: nat)
    requires Subject(a) == Subject(b)
    ensures a == b
  {
    DecimalOfFormat(a);
    DecimalOfFormat(b);
    assert Subject(a)[|USER_PREFIX|..] == FormatUint(a) && Subject(b)[|USER_PREFIX|..] == FormatUint(b);
  }

  /** Parsing inverts `subject()` exactly on the identifiers that fit 64 bits. */
  lemma ParseOfSubject(id: nat)
    ensures ParseUint(TrimUserPrefix(Subject(id))) == if id <= MAX_UINT64 then Some(id) else None
  {
    DecimalOfFormat(id);
    assert Subject(id)[|USER_PREFIX|..] == FormatUint(id);
  }

  // ---------------------------------------------------------------- rows

  datatype Rule = Rule(ptype: string, v0: string, v1: string, v2: string, v3: string, v4: string, v5: string)

  function Grouping(user: nat, role: string): Rule { Rule("g", Subject(user), role, "", "", "", "") }
  function Policy(role: string, path: string, expression: string): Rule {
    Rule("p", role, path, expression, "", "", "")
  }

  function Column(row: Rule, i: nat): string
    requires i < 6
  {
    match i case 0 => row.v0 case 1 => row.v1 case 2 => row.v2 case 3 => row.v3 case 4 => row.v4 case _ => row.v5
  }

  function WithColumn(row: Rule, i: nat, v: string): (r: Rule)
    requires i < 6
    ensures r.ptype == row.ptype && forall j :: 0 <= j < 6 ==> Column(r, j) == if j == i then v else Column(row, j)
  {
    match i
    case 0 => row.(v0 := v) case 1 => row.(v1 := v) case 2 => row.(v2 := v)
    case 3 => row.(v3 := v) case 4 => row.(v4 := v) case _ => row.(v5 := v)
  }

  /** `newPolicyRule`: values past the sixth are dropped, missing ones are empty. */
  method NewPolicyRule(ptype: string, values: seq<string>) returns (row: Rule)
    ensures row.ptype == ptype
    ensures forall i :: 0 <= i < 6 ==> Column(row, i) == if i < |values| then values[i] else ""
  {
    row := Rule(ptype, "", "", "", "", "", "");
    var index := 0;
    while index < |values| && index < 6
      invariant 0 <= index <= |values| && index <= 6
      invariant row.ptype == ptype
      invariant forall i :: 0 <= i < 6 ==> Column(row, i) == if i < index then values[i] else ""
    {
      row := WithColumn(row, index, values[index]);
      index := index + 1;
    }
  }

  function Cells(row: Rule): seq<string> { [row.ptype, row.v0, row.v1, row.v2, row.v3, row.v4, row.v5] }

  /** `r` is `s` without its trailing empty strings, the first element being kept in any case. */
  ghost predicate IsStripped(s: seq<string>, r: seq<string>) {
    && 1 <= |r| <= |s| && r == s[..|r|]
    && (forall i :: |r| <= i < |s| ==> s[i] == "")
    && (|r| > 1 ==> r[|r| - 1] != "")
  }

  /** `ruleArray`. */
  method RuleArray(row: Rule) returns (result: seq<string>)
    ensures IsStripped(Cells(row), result)
  {
    result := Cells(row);
    while |result| > 1 && result[|result| - 1] == ""
      invariant 1 <= |result| <= 7 && result == Cells(row)[..|result|]
      invariant forall i :: |result| <= i < 7 ==> Cells(row)[i] == ""
      decreases |result|
    {
      result := result[..|result| - 1];
    }
  }

  /** A rule written to the table and loaded back is the same rule exactly when it has at most six
      values and does not end in an empty one. */
  lemma RowRoundTrip(ptype: string, values: seq<string>, row: Rule, back: seq<string>)
    requires row.ptype == ptype
    requires forall i :: 0 <= i < 6 ==> Column(row, i) == if i < |values| then values[i] else ""
    requires IsStripped(Cells(row), back)
    ensures back == [ptype] + values <==> |values| <= 6 && (values != [] ==> values[|values| - 1] != "")
  {
    assert Cells(row) == [ptype] + seq(6, i requires 0 <= i < 6 => Column(row, i));
    var whole := [ptype] + values;
    if |values| <= 6 && (values != [] ==> values[|values| - 1] != "") {
      assert forall i :: 0 <= i < |whole| ==> Cells(row)[i] == whole[i];
      var last := |whole| - 1;
      assert whole[last] == if values == [] then ptype else values[|values| - 1];
      assert |back| <= |whole|;
      assert |back| == |whole|;
      assert back == whole;
    }
  }

  // ---------------------------------------------------------------- users behind assignments

  /** The user a grouping row speaks of, as far as `assignedUserIDs` can tell. */
  function AssignedId(row: Rule): Option<nat> {
    var id := ParseUint(TrimUserPrefix(row.v0));
    if id == Some(0) then None else id
  }

  method AssignedUserIds(rows: seq<Rule>) returns (ids: seq<nat>)
    ensures forall id :: id in ids <==> exists i :: 0 <= i < |rows| && AssignedId(rows[i]) == Some(id)
  {
    ids := [];
    for n := 0 to |rows|
      invariant forall id :: id in ids <==> exists i :: 0 <= i < n && AssignedId(rows[i]) == Some(id)
    {
      var parsed := ParseUint(TrimUserPrefix(rows[n].v0));
      if parsed.Some? && parsed.value != 0 {
        ids := ids + [parsed.value];
      }
    }
  }

  lemma AssignedIdOfGrouping(user: nat, role: string)
    ensures AssignedId(Grouping(user, role)) == if 0 < user <= MAX_UINT64 then Some(user) else None
  {
    ParseOfSubject(user);
  }

  // ---------------------------------------------------------------- method sets

  function Uppers(methods: seq<string>): seq<string> {
    seq(|methods|, i requires 0 <= i < |methods| => ToUpper(Trim(methods[i])))
  }

  function UniqueUpper(methods: seq<string>): seq<string> { Unique(Uppers(methods)) }

  /** The methods of one permission as the third column of its rule. */
  function Expression(methods: seq<string>): string
    requires methods != []
  {
    if |methods| > 1 then "(" + Join(methods, '|') + ")" else methods[0]
  }

  predicate Paren(c: char) { c == '(' || c == ')' }

  function TrimParensLeft(s: string): string { if s != "" && Paren(s[0]) then TrimParensLeft(s[1..]) else s }
  function TrimParensRight(s: string): string {
    if s != "" && Paren(s[|s| - 1]) then TrimParensRight(s[..|s| - 1]) else s
  }

  /** How `GetPermissions` reads the column back. */
  function ReadExpression(expression: string): seq<string> {
    Split(TrimParensRight(TrimParensLeft(expression)), '|')
  }

  ghost predicate Bare(s: string) { s != "" && !Paren(s[0]) && !Paren(s[|s| - 1]) }

  ghost predicate MethodWord(m: string) { Bare(m) && Without(m, '|') }

  lemma {:induction false} JoinIsBare(ms: seq<string>)
    requires ms != [] && forall i :: 0 <= i < |ms| ==> MethodWord(ms[i])
    ensures Bare(Join(ms, '|'))
  {
    if |ms| > 1 {
      JoinIsBare(ms[1..]);
      assert Join(ms, '|')[0] == ms[0][0];
    }
  }

  /** The method set of a rule survives the round trip through its column. */
  lemma ExpressionRoundTrip(ms: seq<string>)
    requires ms != [] && forall i :: 0 <= i < |ms| ==> MethodWord(ms[i])
    ensures ReadExpression(Expression(ms)) == ms
  {
    JoinIsBare(ms);
    SplitOfJoin(ms, '|');
    var joined := Join(ms, '|');
    if |ms| > 1 {
      var e := Expression(ms);
      assert e[0] == '(' && e[1..] == joined + ")";
      assert TrimParensLeft(e) == TrimParensLeft(e[1..]) == joined + ")";
      assert (joined + ")")[..|joined|] == joined;
      assert TrimParensRight(joined + ")") == TrimParensRight(joined) == joined;
    }
  }

  predicate HttpMethod(m: string) { m == "GET" || m == "POST" || m == "PUT" || m == "PATCH" || m == "DELETE" }

  lemma HttpMethodIsWord(m: string)
    requires HttpMethod(m)
    ensures MethodWord(m)
  {
  }
}
