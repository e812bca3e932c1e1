/** The name patterns as regular expressions, sequences of repeated character classes, and that the
    predicates used elsewhere are matches of them. */
module NamePatterns {
  import opened Options
  import opened Text
  import opened ApiPaths
  import opened Normalizers
  import opened Rbac

  /** A character class, given by its ranges, and how often it is repeated. */
  datatype Piece = Piece(ranges: seq<(char, char)>, min: nat, max: Option<nat>)

  predicate InClass(ranges: seq<(char, char)>, c: char) {
    exists i :: 0 <= i < |ranges| && ranges[i].0 <= c <= ranges[i].1
  }

  predicate AllIn(ranges: seq<(char, char)>, s: string) { forall i :: 0 <= i < |s| ==> InClass(ranges, s[i]) }

  predicate Repeats(p: Piece, s: string) {
    p.min <= |s| && (p.max.Some? ==> |s| <= p.max.value) && AllIn(p.ranges, s)
  }

  /** The whole text is made of what the pieces stand for, one after the other. */
  ghost predicate Matches(pattern: seq<Piece>, s: string)
    decreases |pattern|
  {
    if pattern == [] then s == ""
    else exists k :: 0 <= k <= |s| && Repeats(pattern[0], s[..k]) && Matches(pattern[1..], s[k..])
  }

  // ---------------------------------------------------------------- the patterns

  const LOWER := [('a', 'z')]
  const UPPER := [('A', 'Z')]
  const LETTER := [('A', 'Z'), ('a', 'z')]
  const WORD := [('a', 'z'), ('0', '9'), ('_', '_')]
  const LITERAL := [('a', 'z'), ('0', '9'), ('_', '_'), ('-', '-')]

  function One(ranges: seq<(char, char)>): Piece { Piece(ranges, 1, Some(1)) }
  function Only(c: char): Piece { One([(c, c)]) }
  function Many(ranges: seq<(char, char)>, min: nat, max: nat): Piece { Piece(ranges, min, Some(max)) }

  const PACKAGE_PATTERN := [One(LOWER), Many(WORD, 1, 62)]
  const TABLE_PATTERN := [One(LOWER), Many(WORD, 1, 63)]
  const TYPE_PATTERN := [One(UPPER), Many([('A', 'Z'), ('a', 'z'), ('0', '9')], 1, 63)]
  const ROLE_PATTERN := [One(LOWER), Many(WORD, 2, 63)]
  const SEGMENT_PATTERN := [One([('a', 'z'), ('0', '9')]), Many(LITERAL, 0, 63)]
  const HEADER_PATTERN := [One(LETTER), Many([('A', 'Z'), ('a', 'z'), ('0', '9'), ('-', '-')], 0, 63)]
  const CASBIN_PATTERN := [Only(':'), One(LOWER), Many(WORD, 1, 63)]
  const TEMPLATE_PATTERN := [Only('{'), One(LOWER), Many(WORD, 1, 63), Only('}')]
  const ANY_WORD := Piece(WORD, 0, None)
  const PERMISSION_PATTERN := [One(LOWER), ANY_WORD, Only(':'), One(LOWER), ANY_WORD]

  // ---------------------------------------------------------------- matching

  lemma LastPiece(p: Piece, s: string)
    ensures Matches([p], s) <==> Repeats(p, s)
  {
    assert [p][1..] == [];
    assert s[..|s|] == s && s[|s|..] == "";
    if Repeats(p, s) { assert Repeats([p][0], s[..|s|]) && Matches([p][1..], s[|s|..]); }
    if Matches([p], s) {
      var k :| 0 <= k <= |s| && Repeats(p, s[..k]) && Matches([], s[k..]);
      assert k == |s|;
    }
  }

  lemma FirstCharacter(ranges: seq<(char, char)>, rest: seq<Piece>, s: string)
    ensures Matches([One(ranges)] + rest, s) <==> s != "" && InClass(ranges, s[0]) && Matches(rest, s[1..])
  {
    var pattern := [One(ranges)] + rest;
    assert pattern[0] == One(ranges) && pattern[1..] == rest;
    if Matches(pattern, s) {
      var k :| 0 <= k <= |s| && Repeats(pattern[0], s[..k]) && Matches(pattern[1..], s[k..]);
      assert k == 1 && s[..1][0] == s[0];
    }
    if s != "" && InClass(ranges, s[0]) && Matches(rest, s[1..]) {
      assert Repeats(pattern[0], s[..1]) && Matches(pattern[1..], s[1..]);
    }
  }

  /** One character, then others. */
  lemma TwoPieces(first: seq<(char, char)>, last: Piece, s: string)
    ensures Matches([One(first), last], s) <==> s != "" && InClass(first, s[0]) && Repeats(last, s[1..])
  {
    assert [One(first), last] == [One(first)] + [last];
    FirstCharacter(first, [last], s);
    if s != "" { LastPiece(last, s[1..]); }
  }

  lemma Ranges(c: char)
    ensures InClass(LOWER, c) <==> IsLower(c)
    ensures InClass(UPPER, c) <==> IsUpper(c)
    ensures InClass(LETTER, c) <==> WordLetter(c)
    ensures InClass(WORD, c) <==> NameChar(c)
  {
    assert LOWER[0] == ('a', 'z') && UPPER[0] == ('A', 'Z') && LETTER[0] == ('A', 'Z') && LETTER[1] == ('a', 'z');
    assert WORD[0] == ('a', 'z') && WORD[1] == ('0', '9') && WORD[2] == ('_', '_');
  }

  lemma MoreRanges(c: char)
    ensures InClass(LITERAL, c) <==> LiteralChar(c)
    ensures InClass([('a', 'z'), ('0', '9')], c) <==> IsLower(c) || IsDigit(c)
    ensures InClass([('A', 'Z'), ('a', 'z'), ('0', '9')], c) <==> IsUpper(c) || IsLower(c) || IsDigit(c)
    ensures InClass([('A', 'Z'), ('a', 'z'), ('0', '9'), ('-', '-')], c) <==> WordLetter(c) || IsDigit(c) || c == '-'
  {
    assert LITERAL[0] == ('a', 'z') && LITERAL[1] == ('0', '9') && LITERAL[2] == ('_', '_') && LITERAL[3] == ('-', '-');
    var d, u, h := [('a', 'z'), ('0', '9')], [('A', 'Z'), ('a', 'z'), ('0', '9')],
        [('A', 'Z'), ('a', 'z'), ('0', '9'), ('-', '-')];
    assert d[0] == ('a', 'z') && d[1] == ('0', '9');
    assert u[0] == ('A', 'Z') && u[1] == ('a', 'z') && u[2] == ('0', '9');
    assert h[0] == ('A', 'Z') && h[1] == ('a', 'z') && h[2] == ('0', '9') && h[3] == ('-', '-');
  }

  /** All but the first character. */
  lemma TailIn(ranges: seq<(char, char)>, s: string)
    requires s != ""
    ensures AllIn(ranges, s[1..]) <==> forall i :: 1 <= i < |s| ==> InClass(ranges, s[i])
  {
    if AllIn(ranges, s[1..]) {
      forall i | 1 <= i < |s| ensures InClass(ranges, s[i]) { assert s[i] == s[1..][i - 1]; }
    }
  }

  /** Lower-case words: modules, tables and fields, roles. */
  lemma WordPatterns(s: string)
    ensures PackageName(s) <==> Matches(PACKAGE_PATTERN, s)
    ensures TableName(s) <==> Matches(TABLE_PATTERN, s)
    ensures ValidRoleName(s) <==> Matches(ROLE_PATTERN, s)
  {
    forall c ensures (InClass(LOWER, c) <==> IsLower(c)) && (InClass(WORD, c) <==> NameChar(c)) { Ranges(c); }
    TwoPieces(LOWER, Many(WORD, 1, 62), s);
    TwoPieces(LOWER, Many(WORD, 1, 63), s);
    TwoPieces(LOWER, Many(WORD, 2, 63), s);
    if s != "" { TailIn(WORD, s); }
  }

  lemma TypePattern(s: string)
    ensures TypeName(s) <==> Matches(TYPE_PATTERN, s)
  {
    var kind := [('A', 'Z'), ('a', 'z'), ('0', '9')];
    forall c ensures InClass(UPPER, c) <==> IsUpper(c)
             ensures InClass(kind, c) <==> IsUpper(c) || IsLower(c) || IsDigit(c)
    {
      Ranges(c);
      MoreRanges(c);
    }
    TwoPieces(UPPER, Many(kind, 1, 63), s);
    if s != "" { TailIn(kind, s); }
  }

  lemma SegmentPattern(s: string)
    ensures LiteralSegment(s) <==> Matches(SEGMENT_PATTERN, s)
  {
    var kind := [('a', 'z'), ('0', '9')];
    forall c ensures (InClass(kind, c) <==> IsLower(c) || IsDigit(c)) && (InClass(LITERAL, c) <==> LiteralChar(c)) {
      MoreRanges(c);
    }
    TwoPieces(kind, Many(LITERAL, 0, 63), s);
    if s != "" { TailIn(LITERAL, s); }
  }

  lemma HeaderPattern(s: string)
    ensures HeaderName(s) <==> Matches(HEADER_PATTERN, s)
  {
    var kind := [('A', 'Z'), ('a', 'z'), ('0', '9'), ('-', '-')];
    forall c ensures (InClass(LETTER, c) <==> WordLetter(c))
      && (InClass(kind, c) <==> WordLetter(c) || IsDigit(c) || c == '-')
    {
      Ranges(c);
      MoreRanges(c);
    }
    TwoPieces(LETTER, Many(kind, 0, 63), s);
    if s != "" { TailIn(kind, s); }
  }

  lemma OnlyIn(a: char, c: char)
    ensures InClass([(a, a)], c) <==> c == a
  {
    assert [(a, a)][0] == (a, a);
  }

  lemma CasbinPattern(s: string)
    ensures CasbinParameter(s) <==> Matches(CASBIN_PATTERN, s)
  {
    var rest := [One(LOWER), Many(WORD, 1, 63)];
    assert CASBIN_PATTERN == [Only(':')] + rest && TABLE_PATTERN == rest;
    FirstCharacter([(':', ':')], rest, s);
    if s != "" {
      OnlyIn(':', s[0]);
      WordPatterns(s[1..]);
    }
  }

  /** The piece stands for the first `k` characters. */
  ghost predicate CutAt(p: Piece, rest: seq<Piece>, s: string, k: nat) {
    k <= |s| && Repeats(p, s[..k]) && Matches(rest, s[k..])
  }

  lemma SomeCut(p: Piece, rest: seq<Piece>, s: string)
    ensures Matches([p] + rest, s) <==> exists k: nat :: CutAt(p, rest, s, k)
  {
    var pattern := [p] + rest;
    assert pattern[0] == p && pattern[1..] == rest;
    if Matches(pattern, s) {
      var k :| 0 <= k <= |s| && Repeats(pattern[0], s[..k]) && Matches(pattern[1..], s[k..]);
      assert CutAt(p, rest, s, k);
    }
    if exists k: nat :: CutAt(p, rest, s, k) {
      var k: nat :| CutAt(p, rest, s, k);
      assert Repeats(pattern[0], s[..k]) && Matches(pattern[1..], s[k..]);
    }
  }

  lemma OneCharacter(c: char, t: string)
    ensures Matches([Only(c)], t) <==> t == [c]
  {
    LastPiece(Only(c), t);
    if t != "" { OnlyIn(c, t[0]); }
  }

  /** A piece followed by one closing character. */
  lemma ClosedBy(p: Piece, close: char, s: string)
    ensures Matches([p, Only(close)], s) <==> s != "" && s[|s| - 1] == close && Repeats(p, s[..|s| - 1])
  {
    assert [p, Only(close)] == [p] + [Only(close)];
    SomeCut(p, [Only(close)], s);
    forall k: nat | k <= |s| ensures CutAt(p, [Only(close)], s, k) <==>
      k == |s| - 1 && s[k] == close && Repeats(p, s[..k])
    {
      OneCharacter(close, s[k..]);
    }
    if s != "" { assert CutAt(p, [Only(close)], s, |s| - 1) <==> s[|s| - 1] == close && Repeats(p, s[..|s| - 1]); }
  }

  lemma TemplatePattern(s: string)
    ensures TemplateParameter(s) <==> Matches(TEMPLATE_PATTERN, s)
  {
    var words, close := Many(WORD, 1, 63), Only('}');
    assert TEMPLATE_PATTERN == [Only('{')] + [One(LOWER), words, close];
    assert [One(LOWER), words, close] == [One(LOWER)] + [words, close];
    FirstCharacter([('{', '{')], [One(LOWER), words, close], s);
    if s != "" {
      OnlyIn('{', s[0]);
      FirstCharacter(LOWER, [words, close], s[1..]);
      if |s| >= 2 { ClosedBy(words, '}', s[2..]); TemplateBody(s); }
    }
  }

  lemma TemplateBody(s: string)
    requires |s| >= 2
    ensures s[|s| - 1] == '}' && ParameterName(s[1..|s| - 1]) <==>
      s[1..] != "" && InClass(LOWER, s[1..][0]) && s[2..] != "" && s[2..][|s[2..]| - 1] == '}'
      && Repeats(Many(WORD, 1, 63), s[2..][..|s[2..]| - 1])
  {
    var name := s[1..|s| - 1];
    WordPatterns(name);
    TwoPieces(LOWER, Many(WORD, 1, 63), name);
    if name != "" { assert name[1..] == s[2..][..|s[2..]| - 1]; }
  }

  // ---------------------------------------------------------------- permission identifiers

  lemma WordNameIs(s: string)
    ensures WordName(s) <==> s != "" && InClass(LOWER, s[0]) && Repeats(ANY_WORD, s[1..])
  {
    forall c ensures (InClass(LOWER, c) <==> IsLower(c)) && (InClass(WORD, c) <==> NameChar(c)) { Ranges(c); }
    if s != "" { TailIn(WORD, s); }
  }

  lemma AfterColon(s: string)
    ensures Matches([Only(':'), One(LOWER), ANY_WORD], s) <==> s != "" && s[0] == ':' && WordName(s[1..])
  {
    var rest := [One(LOWER), ANY_WORD];
    assert [Only(':'), One(LOWER), ANY_WORD] == [Only(':')] + rest;
    FirstCharacter([(':', ':')], rest, s);
    if s != "" {
      OnlyIn(':', s[0]);
      TwoPieces(LOWER, ANY_WORD, s[1..]);
      WordNameIs(s[1..]);
    }
  }

  /** A word, a colon, a word. */
  ghost predicate TwoWords(s: string, k: nat) {
    0 < k < |s| && WordName(s[..k]) && s[k] == ':' && WordName(s[k + 1..])
  }

  const PERMISSION_TAIL := [Only(':'), One(LOWER), ANY_WORD]

  lemma TwoWordsFrom(s: string, k: nat)
    requires s != "" && InClass(LOWER, s[0]) && k <= |s| - 1
    ensures TwoWords(s, k + 1) <==> Repeats(ANY_WORD, s[1..k + 1]) && Matches(PERMISSION_TAIL, s[k + 1..])
  {
    AfterColon(s[k + 1..]);
    WordNameIs(s[..k + 1]);
    assert s[..k + 1][1..] == s[1..k + 1];
    if k + 1 < |s| { assert s[k + 1..][1..] == s[k + 2..]; }
  }

  lemma PermissionMatch(s: string)
    ensures Matches(PERMISSION_PATTERN, s) <==> exists k: nat :: TwoWords(s, k)
  {
    assert PERMISSION_PATTERN == [One(LOWER)] + ([ANY_WORD] + PERMISSION_TAIL);
    FirstCharacter(LOWER, [ANY_WORD] + PERMISSION_TAIL, s);
    if s != "" && InClass(LOWER, s[0]) {
      SomeCut(ANY_WORD, PERMISSION_TAIL, s[1..]);
      forall k: nat | k <= |s| - 1 ensures TwoWords(s, k + 1) <==> CutAt(ANY_WORD, PERMISSION_TAIL, s[1..], k) {
        TwoWordsFrom(s, k);
        assert s[1..][..k] == s[1..k + 1] && s[1..][k..] == s[k + 1..];
      }
      SomeIff(s);
    } else {
      forall k: nat ensures !TwoWords(s, k) { if 0 < k < |s| { WordNameIs(s[..k]); } }
    }
  }

  lemma SomeIff(s: string)
    requires s != "" && forall k: nat :: k <= |s| - 1 ==>
      (TwoWords(s, k + 1) <==> CutAt(ANY_WORD, PERMISSION_TAIL, s[1..], k))
    ensures (exists k: nat :: TwoWords(s, k)) <==> exists k: nat :: CutAt(ANY_WORD, PERMISSION_TAIL, s[1..], k)
  {
    if exists k: nat :: TwoWords(s, k) {
      var k: nat :| TwoWords(s, k);
      assert TwoWords(s, (k - 1) + 1);
      assert CutAt(ANY_WORD, PERMISSION_TAIL, s[1..], k - 1);
    }
  }

  lemma PermissionPattern(s: string)
    ensures PermissionId(s) <==> Matches(PERMISSION_PATTERN, s)
  {
    PermissionMatch(s);
    if exists k: nat :: TwoWords(s, k) {
      var k: nat :| TwoWords(s, k);
      var words := [s[..k], s[k + 1..]];
      assert Join(words, ':') == words[0] + [':'] + Join(words[1..], ':') == s;
      SplitOfJoin(words, ':');
    }
    if PermissionId(s) {
      var parts := Split(s, ':');
      JoinOfSplit(s, ':');
      assert Join(parts, ':') == parts[0] + [':'] + Join(parts[1..], ':');
      assert s[..|parts[0]|] == parts[0] && s[|parts[0]| + 1..] == parts[1];
      assert TwoWords(s, |parts[0]|);
    }
  }
}
