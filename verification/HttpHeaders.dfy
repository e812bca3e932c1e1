/** HTTP header maps: canonical names, and the clone `Execute` stores and returns. */
module HttpHeaders {
  import opened Text

  /** A header name, given as the words between its dashes. */
  type HeaderName = seq<string>

  type Headers = map<HeaderName, seq<string>>

  // ---------------------------------------------------------------- header names

  predicate TokenChar(c: char) {
    IsLower(c) || IsUpper(c) || IsDigit(c)
        || c in {'!', '#', '$', '%', '&', '\'', '*', '+', '-', '.', '^', '_', '`', '|', '~'}
  }

  predicate AllTokens(s: string) { s == "" || (TokenChar(s[0]) && AllTokens(s[1..])) }

  function LowerAll(s: string): (r: string)
    ensures |r| == |s|
  {
    if s == "" then "" else [LowerChar(s[0])] + LowerAll(s[1..])
  }

  function CanonicalWord(w: string): (r: string)
    ensures |r| == |w|
  {
    if w == "" then "" else [UpperChar(w[0])] + LowerAll(w[1..])
  }

  predicate TokenName(name: HeaderName) { forall i :: 0 <= i < |name| ==> AllTokens(name[i]) }

  /** `textproto.CanonicalMIMEHeaderKey`: each word gets an upper-case first letter and lower-case
      others; a name with a character that no header name may have is left alone. */
  function Canonical(name: HeaderName): (r: HeaderName)
    ensures |r| == |name| && forall i :: 0 <= i < |r| ==> |r[i]| == |name[i]|
  {
    if TokenName(name) then seq(|name|, i requires 0 <= i < |name| => CanonicalWord(name[i])) else name
  }

  /** The characters a header name may have, after section 3.2.6 of RFC 7230. */
  ghost predicate IsToken(c: char) {
    || 'a' <= c <= 'z' || 'A' <= c <= 'Z' || '0' <= c <= '9' || c in "!#$%&'*+-.^_`|~"
  }

  lemma {:induction false} AllTokensIff(s: string)
    ensures AllTokens(s) <==> forall i :: 0 <= i < |s| ==> IsToken(s[i])
  {
    if s != "" {
      AllTokensIff(s[1..]);
      assert forall i :: 0 < i < |s| ==> s[i] == s[1..][i - 1];
      assert TokenChar(s[0]) <==> IsToken(s[0]);
    }
  }

  lemma {:induction false} LowerAllIs(s: string)
    ensures forall i :: 0 <= i < |s| ==> LowerAll(s)[i] == LowerChar(s[i])
  {
    if s != "" { LowerAllIs(s[1..]); }
  }

  ghost predicate TokensOnly(name: HeaderName) {
    forall i, j :: 0 <= i < |name| && 0 <= j < |name[i]| ==> IsToken(name[i][j])
  }

  /** The canonical form has a capital at the front of each word and small letters after it; a name with any
      other character is its own. */
  lemma CanonicalIs(name: HeaderName)
    ensures if !TokensOnly(name) then Canonical(name) == name
            else forall i, j :: 0 <= i < |name| && 0 <= j < |name[i]| ==>
              Canonical(name)[i][j] == if j == 0 then UpperChar(name[i][0]) else LowerChar(name[i][j])
  {
    forall i | 0 <= i < |name| ensures AllTokens(name[i]) <==> forall j :: 0 <= j < |name[i]| ==> IsToken(name[i][j]) {
      AllTokensIff(name[i]);
    }
    if TokensOnly(name) {
      forall i, j | 0 <= i < |name| && 0 <= j < |name[i]|
        ensures Canonical(name)[i][j] == if j == 0 then UpperChar(name[i][0]) else LowerChar(name[i][j])
      {
        LowerAllIs(name[i][1..]);
      }
    }
  }

  function Values(h: Headers, name: HeaderName): seq<string> {
    if Canonical(name) in h then h[Canonical(name)] else []
  }

  function Add(h: Headers, name: HeaderName, value: string): Headers {
    h[Canonical(name) := Values(h, name) + [value]]
  }

  // ---------------------------------------------------------------- cloning

  /** Some name of the source with values has this canonical form. */
  ghost predicate NameFrom<N(!new)>(canon: N -> N, source: map<N, seq<string>>, c: N) {
    exists name :: name in source && source[name] != [] && canon(name) == c
  }

  ghost predicate ValueFrom<N(!new)>(canon: N -> N, source: map<N, seq<string>>, c: N, v: string) {
    exists name :: name in source && canon(name) == c && v in source[name]
  }

  /** No other name with values has the same canonical form. */
  ghost predicate OnlyName<N(!new)>(canon: N -> N, source: map<N, seq<string>>, name: N) {
    forall other :: other in source && source[other] != [] && canon(other) == canon(name) ==> other == name
  }

  ghost predicate CloneNames<N(!new)>(canon: N -> N, source: map<N, seq<string>>, result: map<N, seq<string>>) {
    forall c :: c in result <==> NameFrom(canon, source, c)
  }

  ghost predicate CloneValues<N(!new)>(canon: N -> N, source: map<N, seq<string>>, result: map<N, seq<string>>) {
    forall c, v :: c in result ==> (v in result[c] <==> ValueFrom(canon, source, c, v))
  }

  ghost predicate CloneOnly<N(!new)>(canon: N -> N, source: map<N, seq<string>>, result: map<N, seq<string>>) {
    forall name :: name in source && source[name] != [] && OnlyName(canon, source, name) ==>
      canon(name) in result && result[canon(name)] == source[name]
  }

  /** Canonical names, each with the values of all the names it stands for, and with those of its only
      name unchanged and in order. */
  ghost predicate IsCloneBy<N(!new)>(canon: N -> N, source: map<N, seq<string>>, result: map<N, seq<string>>) {
    CloneNames(canon, source, result) && CloneValues(canon, source, result) && CloneOnly(canon, source, result)
  }

  ghost predicate IsClone(source: Headers, result: Headers) { IsCloneBy(Canonical, source, result) }

  function Extended<N>(h: map<N, seq<string>>, c: N, values: seq<string>): map<N, seq<string>> {
    if values == [] then h else h[c := (if c in h then h[c] else []) + values]
  }

  lemma ExtendNames<N(!new)>(canon: N -> N, source: map<N, seq<string>>, result: map<N, seq<string>>,
                             name: N, values: seq<string>)
    requires CloneNames(canon, source, result) && name !in source
    ensures CloneNames(canon, source[name := values], Extended(result, canon(name), values))
  {
    var more := source[name := values];
    forall c ensures c in Extended(result, canon(name), values) <==> NameFrom(canon, more, c) {
      if NameFrom(canon, source, c) {
        var n :| n in source && source[n] != [] && canon(n) == c;
        assert more[n] == source[n];
      }
      if values != [] && c == canon(name) { assert more[name] == values; }
      if NameFrom(canon, more, c) {
        var n :| n in more && more[n] != [] && canon(n) == c;
        assert n == name || source[n] == more[n];
      }
    }
  }

  lemma ExtendValues<N(!new)>(canon: N -> N, source: map<N, seq<string>>, result: map<N, seq<string>>,
                              name: N, values: seq<string>)
    requires CloneNames(canon, source, result) && CloneValues(canon, source, result) && name !in source
    ensures CloneValues(canon, source[name := values], Extended(result, canon(name), values))
  {
    var more, after := source[name := values], Extended(result, canon(name), values);
    forall c, v | c in after ensures v in after[c] <==> ValueFrom(canon, more, c, v) {
      if v in after[c] {
        if c in result && v in result[c] {
          var n :| n in source && canon(n) == c && v in source[n];
          assert more[n] == source[n];
        } else {
          assert c == canon(name) && v in values && more[name] == values;
        }
      }
      if ValueFrom(canon, more, c, v) {
        var n :| n in more && canon(n) == c && v in more[n];
        if n != name { assert source[n] == more[n] && ValueFrom(canon, source, c, v) && NameFrom(canon, source, c); }
      }
    }
  }

  lemma OnlyBefore<N(!new)>(canon: N -> N, source: map<N, seq<string>>, name: N, values: seq<string>, n: N)
    requires name !in source && n in source && OnlyName(canon, source[name := values], n)
    ensures OnlyName(canon, source, n) && (values != [] ==> canon(name) != canon(n))
  {
    var more := source[name := values];
    assert name in more && more[name] == values;
    forall other | other in source && source[other] != [] && canon(other) == canon(n) ensures other == n {
      assert other in more && more[other] == source[other];
    }
  }

  lemma OnlyNewcomer<N(!new)>(canon: N -> N, source: map<N, seq<string>>, name: N, values: seq<string>)
    requires name !in source && OnlyName(canon, source[name := values], name)
    ensures !NameFrom(canon, source, canon(name))
  {
    var more := source[name := values];
    forall other | other in source && source[other] != [] ensures canon(other) != canon(name) {
      assert other in more && more[other] == source[other];
    }
  }

  lemma ExtendOnly<N(!new)>(canon: N -> N, source: map<N, seq<string>>, result: map<N, seq<string>>,
                            name: N, values: seq<string>)
    requires CloneNames(canon, source, result) && CloneOnly(canon, source, result) && name !in source
    ensures CloneOnly(canon, source[name := values], Extended(result, canon(name), values))
  {
    var more, after := source[name := values], Extended(result, canon(name), values);
    forall n | n in more && more[n] != [] && OnlyName(canon, more, n)
      ensures canon(n) in after && after[canon(n)] == more[n]
    {
      if n == name { OnlyNewcomer(canon, source, name, values); } else { OnlyBefore(canon, source, name, values, n); }
    }
  }

  /** `cloneHeaders`, for any iteration order of the source map and any canonical form of names. */
  method CloneBy<N(==, !new)>(canon: N -> N, source: map<N, seq<string>>) returns (result: map<N, seq<string>>)
    ensures IsCloneBy(canon, source, result)
  {
    result := map[];
    var left := source.Keys;
    ghost var part: map<N, seq<string>> := map[];
    while left != {}
      invariant left <= source.Keys && part == source - left && IsCloneBy(canon, part, result)
      decreases left
    {
      var name :| name in left;
      ExtendNames(canon, part, result, name, source[name]);
      ExtendValues(canon, part, result, name, source[name]);
      ExtendOnly(canon, part, result, name, source[name]);
      part := part[name := source[name]];
      left := left - {name};
      result := AddAll(result, canon(name), source[name]);
    }
    assert part == source;
  }

  /** The inner loop: add the values of one name. */
  method AddAll<N(==)>(h: map<N, seq<string>>, c: N, values: seq<string>) returns (r: map<N, seq<string>>)
    ensures r == Extended(h, c, values)
  {
    r := h;
    for i := 0 to |values|
      invariant r == Extended(h, c, values[..i])
    {
      ghost var before := if c in h then h[c] else [];
      assert values[..0] == [] && before + [] == before;
      assert before + values[..i + 1] == before + values[..i] + [values[i]];
      r := r[c := (if c in r then r[c] else []) + [values[i]]];
    }
    assert values[..|values|] == values;
  }

  method CloneHeaders(source: Headers) returns (result: Headers)
    ensures IsClone(source, result)
  {
    result := CloneBy(Canonical, source);
  }
}
