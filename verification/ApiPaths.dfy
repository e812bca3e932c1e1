/** API path templates: the validators, the regular-expression rewrite `openAPIPathToCasbin`, and
    the brace-rewriting loop of the core permission manifest. */
module ApiPaths {
  import opened Text
  import opened Options

  // ---------------------------------------------------------------- segments

  predicate LiteralChar(c: char) { IsLower(c) || IsDigit(c) || c == '_' || c == '-' }
  predicate NameChar(c: char) { IsLower(c) || IsDigit(c) || c == '_' }

  /** `^[a-z0-9][a-z0-9_-]{0,63}$` */
  predicate LiteralSegment(s: string) {
    1 <= |s| <= 64 && (IsLower(s[0]) || IsDigit(s[0])) && forall i :: 0 <= i < |s| ==> LiteralChar(s[i])
  }

  /** `[a-z][a-z0-9_]{1,63}` */
  predicate ParameterName(s: string) {
    2 <= |s| <= 64 && IsLower(s[0]) && forall i :: 0 <= i < |s| ==> NameChar(s[i])
  }

  /** `^\{([a-z][a-z0-9_]{1,63})\}$` */
  predicate TemplateParameter(s: string) {
    |s| >= 2 && s[0] == '{' && s[|s| - 1] == '}' && ParameterName(s[1..|s| - 1])
  }

  /** `^:[a-z][a-z0-9_]{1,63}$` */
  predicate CasbinParameter(s: string) {
    |s| >= 1 && s[0] == ':' && ParameterName(s[1..])
  }

  predicate OperationSegment(s: string) { LiteralSegment(s) || TemplateParameter(s) }
  predicate PermissionSegment(s: string) { LiteralSegment(s) || CasbinParameter(s) }

  const PREFIX := "/api/v1/"

  predicate HasPrefix(s: string, p: string) { |p| <= |s| && s[..|p|] == p }

  /** `validAPIPath` */
  predicate ValidPath(path: string, validSegment: string -> bool) {
    && HasPrefix(path, PREFIX) && path[|path| - 1] != '/'
    && forall s :: s in Split(path[1..], '/') ==> validSegment(s)
  }

  predicate ValidOperationPath(path: string) { ValidPath(path, OperationSegment) }
  predicate ValidPermissionPath(path: string) { ValidPath(path, PermissionSegment) }

  // ---------------------------------------------------------------- the regular-expression rewrite

  predicate WordLetter(c: char) { IsLower(c) || IsUpper(c) }
  predicate WordChar(c: char) { WordLetter(c) || IsDigit(c) || c == '_' }

  /** Length of the longest run of word characters at the front. */
  function RunLength(s: string): (n: nat)
    ensures n <= |s| && forall i :: 0 <= i < n ==> WordChar(s[i])
    ensures n < |s| ==> !WordChar(s[n])
  {
    if s != "" && WordChar(s[0]) then 1 + RunLength(s[1..]) else 0
  }

  /** `\{([A-Za-z][A-Za-z0-9_]*)\}` matches at the front of `s`: the length of the name, or 0. */
  function MatchedName(s: string): (n: nat)
    ensures n > 0 ==> n + 2 <= |s| && s[0] == '{' && s[n + 1] == '}'
  {
    if |s| >= 2 && s[0] == '{' && WordLetter(s[1]) then
      var n := RunLength(s[1..]);
      if n + 1 < |s| && s[n + 1] == '}' then n else 0
    else 0
  }

  /** `openAPIPathToCasbin`: replace every match, leftmost first, by a colon and the name. */
  function ToCasbin(s: string): string {
    if s == "" then ""
    else var n := MatchedName(s);
         if n > 0 then ":" + s[1..n + 1] + ToCasbin(s[n + 2..]) else [s[0]] + ToCasbin(s[1..])
  }

  // ---------------------------------------------------------------- the brace loop

  /** One pass over the template with a count of braces still open: an opening brace becomes a
      colon, a closing brace disappears if one is open and stays otherwise. */
  function Scan(s: string, open: nat): Option<string>
    decreases |s|
  {
    if s == "" then (if open == 0 then Some("") else None)
    else if s[0] == '{' then Prepend(":", Scan(s[1..], open + 1))
    else if s[0] == '}' && open > 0 then Scan(s[1..], open - 1)
    else Prepend([s[0]], Scan(s[1..], open))
  }

  function Prepend(p: string, r: Option<string>): Option<string> {
    match r case None => None case Some(t) => Some(p + t)
  }

  function IndexOf(s: string, c: char): (i: nat)
    ensures i <= |s| && (i < |s| ==> s[i] == c)
    ensures forall j :: 0 <= j < i ==> s[j] != c
  {
    if s == "" || s[0] == c then 0 else 1 + IndexOf(s[1..], c)
  }

  lemma {:induction false} ScanPlainPrefix(p: string, s: string)
    requires '{' !in p
    ensures Scan(p + s, 0) == Prepend(p, Scan(s, 0))
  {
    if p == "" {
      assert p + s == s;
      if Scan(s, 0).Some? { assert "" + Scan(s, 0).value == Scan(s, 0).value; }
    } else {
      assert (p + s)[0] == p[0] && (p + s)[1..] == p[1..] + s;
      ScanPlainPrefix(p[1..], s);
      if Scan(s, 0).Some? { assert [p[0]] + (p[1..] + Scan(s, 0).value) == p + Scan(s, 0).value; }
    }
  }

  lemma {:induction false} ScanClosesNearest(mid: string, rest: string, open: nat)
    requires '}' !in mid
    ensures Scan(mid + "}" + rest, open + 1) == Scan(mid + rest, open)
    decreases |mid|
  {
    if mid == "" {
      assert mid + "}" + rest == "}" + rest && mid + rest == rest;
      assert ("}" + rest)[1..] == rest;
    } else {
      var a, b := mid + "}" + rest, mid + rest;
      assert a[0] == b[0] == mid[0] && a[1..] == mid[1..] + "}" + rest && b[1..] == mid[1..] + rest;
      ScanClosesNearest(mid[1..], rest, if mid[0] == '{' then open + 1 else open);
    }
  }

  lemma {:induction false} ScanUnclosed(s: string, open: nat)
    requires '}' !in s && open > 0
    ensures Scan(s, open).None?
    decreases |s|
  {
    if s != "" { ScanUnclosed(s[1..], if s[0] == '{' then open + 1 else open); }
  }

  lemma RoundOnParts(pre: string, mid: string, rest: string)
    requires '{' !in pre && '}' !in mid
    ensures Scan(pre + ("{" + (mid + "}" + rest)), 0) == Scan(pre + (":" + (mid + rest)), 0)
  {
    var before, after := "{" + (mid + "}" + rest), ":" + (mid + rest);
    ScanPlainPrefix(pre, before);
    ScanPlainPrefix(pre, after);
    assert before[1..] == mid + "}" + rest;
    assert after[1..] == mid + rest;
    ScanClosesNearest(mid, rest, 0);
  }

  /** What one round of the loop replaces, it replaces as the scan would. */
  lemma RoundKeepsScan(p: string, start: nat, end: nat)
    requires start < end < |p| && p[start] == '{' && '{' !in p[..start]
    requires p[end] == '}' && '}' !in p[start..end]
    ensures Scan(p[..start] + ":" + p[start + 1..end] + p[end + 1..], 0) == Scan(p, 0)
  {
    var pre, mid, rest := p[..start], p[start + 1..end], p[end + 1..];
    Reassemble(p, start, end);
    RoundOnParts(pre, mid, rest);
  }

  lemma Reassemble(p: string, start: nat, end: nat)
    requires start < end < |p| && p[start] == '{' && p[end] == '}' && '}' !in p[start..end]
    ensures '}' !in p[start + 1..end]
    ensures p == p[..start] + ("{" + (p[start + 1..end] + "}" + p[end + 1..]))
    ensures p[..start] + ":" + p[start + 1..end] + p[end + 1..]
            == p[..start] + (":" + (p[start + 1..end] + p[end + 1..]))
  {
    var mid := p[start + 1..end];
    assert forall i :: 0 <= i < |mid| ==> mid[i] == p[start..end][i + 1];
  }

  lemma RoundFails(p: string, start: nat)
    requires start < |p| && p[start] == '{' && '{' !in p[..start] && '}' !in p[start..]
    ensures Scan(p, 0).None?
  {
    assert p == p[..start] + p[start..];
    ScanPlainPrefix(p[..start], p[start..]);
    assert p[start..][1..] == p[start + 1..];
    ScanUnclosed(p[start + 1..], 1);
  }

  lemma NothingClosesBefore(p: string, start: nat, end: nat)
    requires start <= end < |p| && forall j :: 0 <= j < end - start ==> p[start..][j] != '}'
    ensures '}' !in p[start..end]
  {
    assert forall j :: 0 <= j < end - start ==> p[start..end][j] == p[start..][j];
  }

  /** The loop over braces, for any string whatsoever: it ends, and it computes the scan. */
  method RewriteBraces(path: string) returns (r: Option<string>)
    ensures r == Scan(path, 0)
  {
    var pattern := path;
    while '{' in pattern
      invariant Scan(pattern, 0) == Scan(path, 0)
      decreases |pattern|
    {
      var start := IndexOf(pattern, '{');
      var length := IndexOf(pattern[start..], '}');
      if length == |pattern[start..]| {
        RoundFails(pattern, start);
        return None;
      }
      var end := start + length;
      NothingClosesBefore(pattern, start, end);
      RoundKeepsScan(pattern, start, end);
      pattern := pattern[..start] + ":" + pattern[start + 1..end] + pattern[end + 1..];
    }
    ScanPlainPrefix(pattern, "");
    assert pattern + "" == pattern;
    r := Some(pattern);
  }

  // ---------------------------------------------------------------- when the loop fails

  function Count(s: string, c: char): nat {
    if s == "" then 0 else (if s[0] == c then 1 else 0) + Count(s[1..], c)
  }

  /** From every position on, there are at least as many closing as opening braces. */
  ghost predicate Closable(s: string) {
    forall i :: 0 <= i <= |s| ==> Count(s[i..], '{') <= Count(s[i..], '}')
  }

  lemma ClosableTail(s: string)
    requires s != ""
    ensures Closable(s) <==> Closable(s[1..]) && Count(s, '{') <= Count(s, '}')
  {
    assert s[0..] == s;
    if Closable(s) {
      forall i | 0 <= i <= |s[1..]| ensures Count(s[1..][i..], '{') <= Count(s[1..][i..], '}') {
        assert s[1..][i..] == s[i + 1..];
      }
    }
    if Closable(s[1..]) && Count(s, '{') <= Count(s, '}') {
      forall i | 0 <= i <= |s| ensures Count(s[i..], '{') <= Count(s[i..], '}') {
        if i > 0 { assert s[i..] == s[1..][i - 1..]; }
      }
    }
  }

  /** The loop reports an invalid path exactly when some opening brace has no closing brace left
      for it, counting from the end. */
  lemma {:induction false} ScanSucceedsIff(s: string, open: nat)
    ensures Scan(s, open).Some? <==> Closable(s) && open + Count(s, '{') <= Count(s, '}')
    decreases |s|
  {
    if s == "" {
      assert s[0..] == s;
    } else {
      ClosableTail(s);
      ScanSucceedsIff(s[1..], if s[0] == '{' then open + 1 else if s[0] == '}' && open > 0 then open - 1 else open);
      assert s[1..][0..] == s[1..];
    }
  }

  // ---------------------------------------------------------------- agreement on valid paths

  /** How one segment is translated. */
  function SegmentToCasbin(s: string): string {
    if TemplateParameter(s) then ":" + s[1..|s| - 1] else s
  }

  function SegmentFromCasbin(s: string): string {
    if CasbinParameter(s) then "{" + s[1..] + "}" else s
  }

  function Each(f: string -> string, parts: seq<string>): (r: seq<string>)
    ensures |r| == |parts| && forall i :: 0 <= i < |r| ==> r[i] == f(parts[i])
  {
    seq(|parts|, i requires 0 <= i < |parts| => f(parts[i]))
  }

  lemma {:induction false} PlainIsCopied(p: string, s: string)
    requires '{' !in p
    ensures ToCasbin(p + s) == p + ToCasbin(s)
  {
    if p == "" { assert p + s == s; }
    else {
      assert (p + s)[0] == p[0] && (p + s)[1..] == p[1..] + s;
      PlainIsCopied(p[1..], s);
      assert [p[0]] + (p[1..] + ToCasbin(s)) == p + ToCasbin(s);
    }
  }

  lemma MatchIsReplaced(s: string, name: string, rest: string)
    requires MatchedName(s) == |name| > 0 && s[1..|name| + 1] == name && s[|name| + 2..] == rest
    ensures ToCasbin(s) == ":" + name + ToCasbin(rest)
  {
  }

  lemma ParameterShape(name: string, rest: string)
    requires ParameterName(name)
    ensures var all := "{" + (name + "}" + rest);
            && |all| == |name| + 2 + |rest| && all[0] == '{' && all[1..] == name + "}" + rest && all[|name| + 1] == '}'
            && all[1..|name| + 1] == name && all[|name| + 2..] == rest && all[1] == name[0]
  {
  }

  lemma ParameterIsTranslated(name: string, rest: string)
    requires ParameterName(name)
    ensures ToCasbin("{" + (name + "}" + rest)) == ":" + name + ToCasbin(rest)
  {
    MatchOfParameter(name, rest);
    ParameterShape(name, rest);
    MatchIsReplaced("{" + (name + "}" + rest), name, rest);
  }

  lemma MatchOfParameter(name: string, rest: string)
    requires ParameterName(name)
    ensures MatchedName("{" + (name + "}" + rest)) == |name|
  {
    RunOfName(name, rest);
    ParameterShape(name, rest);
  }

  lemma ParameterIsScanned(name: string, rest: string)
    requires ParameterName(name)
    ensures Scan("{" + (name + "}" + rest), 0) == Prepend(":" + name, Scan(rest, 0))
  {
    RoundOnParts("", name, rest);
    assert "" + ("{" + (name + "}" + rest)) == "{" + (name + "}" + rest);
    assert "" + (":" + (name + rest)) == (":" + name) + rest;
    ScanPlainPrefix(":" + name, rest);
  }

  lemma SegmentIsTranslated(s: string, rest: string)
    requires OperationSegment(s)
    ensures ToCasbin(s + rest) == SegmentToCasbin(s) + ToCasbin(rest)
    ensures Scan(s + rest, 0) == Prepend(SegmentToCasbin(s), Scan(rest, 0))
  {
    if TemplateParameter(s) {
      var name := s[1..|s| - 1];
      assert s + rest == "{" + (name + "}" + rest);
      ParameterIsTranslated(name, rest);
      ParameterIsScanned(name, rest);
    } else {
      assert '{' !in s;
      PlainIsCopied(s, rest);
      ScanPlainPrefix(s, rest);
    }
  }

  lemma RunOfName(name: string, rest: string)
    requires ParameterName(name)
    ensures RunLength(name + "}" + rest) == |name|
  {
    var s := name + "}" + rest;
    assert forall i :: 0 <= i < |name| ==> s[i] == name[i];
    assert s[|name|] == '}';
  }

  lemma {:induction false} SegmentsAreTranslated(parts: seq<string>)
    requires parts != [] && forall i :: 0 <= i < |parts| ==> OperationSegment(parts[i])
    ensures ToCasbin(Join(parts, '/')) == Join(Each(SegmentToCasbin, parts), '/')
    ensures Scan(Join(parts, '/'), 0) == Some(Join(Each(SegmentToCasbin, parts), '/'))
  {
    var out := Each(SegmentToCasbin, parts);
    if |parts| == 1 {
      SegmentIsTranslated(parts[0], "");
      assert parts[0] + "" == parts[0] && out[0] + "" == out[0];
    } else {
      var tail, done := Join(parts[1..], '/'), Join(out[1..], '/');
      SegmentsAreTranslated(parts[1..]);
      assert Each(SegmentToCasbin, parts[1..]) == out[1..];
      TailIsTranslated(parts[0], tail, done);
      JoinUnfolds(parts);
      JoinUnfolds(out);
    }
  }

  lemma JoinUnfolds(parts: seq<string>)
    requires |parts| > 1
    ensures Join(parts, '/') == parts[0] + ("/" + Join(parts[1..], '/'))
  {
  }

  lemma TailIsTranslated(s: string, tail: string, done: string)
    requires OperationSegment(s) && ToCasbin(tail) == done && Scan(tail, 0) == Some(done)
    ensures ToCasbin(s + ("/" + tail)) == SegmentToCasbin(s) + ("/" + done)
    ensures Scan(s + ("/" + tail), 0) == Some(SegmentToCasbin(s) + ("/" + done))
  {
    SegmentIsTranslated(s, "/" + tail);
    PlainIsCopied("/", tail);
    ScanPlainPrefix("/", tail);
  }

  lemma {:induction false} JoinEnds(parts: seq<string>)
    requires parts != [] && forall i :: 0 <= i < |parts| ==> parts[i] != "" && '/' !in parts[i]
    ensures Join(parts, '/') != "" && Join(parts, '/')[|Join(parts, '/')| - 1] != '/'
  {
    if |parts| > 1 { JoinEnds(parts[1..]); }
  }

  lemma SegmentShape(s: string)
    ensures OperationSegment(s) ==> s != "" && '/' !in s && PermissionSegment(SegmentToCasbin(s))
                                    && SegmentFromCasbin(SegmentToCasbin(s)) == s
    ensures PermissionSegment(s) ==> s != "" && '/' !in s && OperationSegment(SegmentFromCasbin(s))
                                     && SegmentToCasbin(SegmentFromCasbin(s)) == s
  {
    if TemplateParameter(s) {
      var name := s[1..|s| - 1];
      assert s == "{" + name + "}";
      assert (":" + name)[1..] == name;
      assert '/' !in s;
    }
    if CasbinParameter(s) {
      var name := s[1..];
      var t := "{" + name + "}";
      assert s == ":" + name && t[1..|t| - 1] == name;
      assert '/' !in s;
    }
  }

  /** Prefix, suffix and segment conditions together, read off the list of segments. */
  lemma ValidFromParts(parts: seq<string>, valid: string -> bool)
    requires |parts| >= 3 && parts[0] == "api" && parts[1] == "v1"
    requires forall i :: 0 <= i < |parts| ==> parts[i] != "" && '/' !in parts[i] && valid(parts[i])
    ensures ValidPath("/" + Join(parts, '/'), valid)
  {
    var joined := Join(parts, '/');
    var path := "/" + joined;
    SplitOfJoin(parts, '/');
    JoinEnds(parts);
    JoinStarts(parts);
    assert path[1..] == joined;
    assert path[|path| - 1] == joined[|joined| - 1];
  }

  lemma JoinStarts(parts: seq<string>)
    requires |parts| >= 3 && parts[0] == "api" && parts[1] == "v1"
    ensures HasPrefix("/" + Join(parts, '/'), PREFIX)
  {
    JoinUnfolds(parts);
    JoinUnfolds(parts[1..]);
    var rest := Join(parts[1..][1..], '/');
    var path := "/" + ("api" + ("/" + ("v1" + ("/" + rest))));
    assert path == PREFIX + rest;
  }

  lemma PartsOfValid(path: string, valid: string -> bool)
    requires ValidPath(path, valid)
    ensures var parts := Split(path[1..], '/');
            |parts| >= 3 && parts[0] == "api" && parts[1] == "v1" && path == "/" + Join(parts, '/')
  {
    JoinOfSplit(path[1..], '/');
    var rest := path[8..];
    assert path == PREFIX + rest;
    assert path[1..] == "api" + ("/" + ("v1" + ("/" + rest)));
    SplitAtSlash("v1", rest);
    SplitAtSlash("api", "v1" + ("/" + rest));
  }

  lemma SplitAtSlash(first: string, rest: string)
    requires '/' !in first
    ensures Split(first + ("/" + rest), '/') == [first] + Split(rest, '/')
  {
    SplitWithPrefix(first, "/" + rest, '/');
    assert ("/" + rest)[1..] == rest;
    assert Split("/" + rest, '/') == [""] + Split(rest, '/');
    assert first + "" == first;
  }

  /** The inverse translation. */
  function FromCasbin(path: string): string
    requires path != ""
  {
    "/" + Join(Each(SegmentFromCasbin, Split(path[1..], '/')), '/')
  }

  /** On every path the schema accepts, the loop and the regular expression agree, the result is a
      path the permission validator accepts, and nothing is lost. */
  lemma TranslationOfValidPath(path: string)
    requires ValidOperationPath(path)
    ensures Scan(path, 0) == Some(ToCasbin(path))
    ensures ValidPermissionPath(ToCasbin(path))
    ensures FromCasbin(ToCasbin(path)) == path
  {
    var parts := Split(path[1..], '/');
    PartsOfValid(path, OperationSegment);
    SegmentsAreTranslated(parts);
    PlainIsCopied("/", Join(parts, '/'));
    ScanPlainPrefix("/", Join(parts, '/'));
    var out := Each(SegmentToCasbin, parts);
    assert ToCasbin(path) == "/" + Join(out, '/');
    forall i | 0 <= i < |out| ensures out[i] != "" && '/' !in out[i] && PermissionSegment(out[i])
                                      && SegmentFromCasbin(out[i]) == parts[i]
    {
      SegmentShape(parts[i]);
      SegmentShape(out[i]);
    }
    ValidFromParts(out, PermissionSegment);
    SplitOfJoin(out, '/');
    assert ToCasbin(path)[1..] == Join(out, '/');
    assert Each(SegmentFromCasbin, out) == parts;
  }

  /** And back: the translation is a bijection between valid operation and permission paths. */
  lemma TranslationIsOnto(path: string)
    requires ValidPermissionPath(path)
    ensures ValidOperationPath(FromCasbin(path)) && ToCasbin(FromCasbin(path)) == path
  {
    var parts := Split(path[1..], '/');
    PartsOfValid(path, PermissionSegment);
    var out := Each(SegmentFromCasbin, parts);
    forall i | 0 <= i < |out| ensures out[i] != "" && '/' !in out[i] && OperationSegment(out[i])
                                      && SegmentToCasbin(out[i]) == parts[i]
    {
      SegmentShape(parts[i]);
      SegmentShape(out[i]);
    }
    ValidFromParts(out, OperationSegment);
    SegmentsAreTranslated(out);
    PlainIsCopied("/", Join(out, '/'));
    assert Each(SegmentToCasbin, out) == parts;
  }

  lemma TranslationIsInjective(a: string, b: string)
    requires ValidOperationPath(a) && ValidOperationPath(b) && ToCasbin(a) == ToCasbin(b)
    ensures a == b
  {
    TranslationOfValidPath(a);
    TranslationOfValidPath(b);
  }

  /** A path that is no valid operation path can make the two rewrites differ. */
  lemma RewritesDifferOutsideValidPaths()
    ensures ToCasbin("/api/v1/{0}") == "/api/v1/{0}" && Scan("/api/v1/{0}", 0) == Some("/api/v1/:0")
  {
    PlainIsCopied(PREFIX, "{0}");
    ScanPlainPrefix(PREFIX, "{0}");
    assert PREFIX + "{0}" == "/api/v1/{0}";
    assert "{0}"[1..] == "0}" && "0}"[1..] == "}" && "}"[1..] == "";
    assert ToCasbin("}") == "}" && ToCasbin("0}") == "0}" && ToCasbin("{0}") == "{0}";
    assert Scan("", 0) == Some("") && Scan("}", 1) == Some("");
    assert "0" + "" == "0" && ":" + "0" == ":0";
    assert Scan("0}", 1) == Prepend("0", Scan("}", 1));
    assert Scan("{0}", 0) == Prepend(":", Scan("0}", 1));
    assert PREFIX + ":0" == "/api/v1/:0";
  }
}
