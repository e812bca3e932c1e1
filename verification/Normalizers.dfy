/** Normalisation as partial functions that fill in and check values, and what makes such a function
    leave its own results alone. */
module Normalizers {
  import opened Options
  import opened Ordering
  import opened Text
  import opened Uniques
  import opened ApiPaths

  // ---------------------------------------------------------------- elements of a list

  /** Normalise each element; one that is refused refuses the list. */
  function NormAll<T(!new)>(f: T -> Option<T>, xs: seq<T>): Option<seq<T>> {
    if xs == [] then Some([])
    else
      var head, tail := f(xs[0]), NormAll(f, xs[1..]);
      if head.None? || tail.None? then None else Some([head.value] + tail.value)
  }

  lemma {:induction false} NormAllEach<T(!new)>(f: T -> Option<T>, xs: seq<T>)
    ensures NormAll(f, xs).Some? <==> forall i :: 0 <= i < |xs| ==> f(xs[i]).Some?
    ensures NormAll(f, xs).Some? ==> |NormAll(f, xs).value| == |xs|
    ensures NormAll(f, xs).Some? ==> forall i :: 0 <= i < |xs| ==> f(xs[i]) == Some(NormAll(f, xs).value[i])
  {
    if xs != [] {
      NormAllEach(f, xs[1..]);
      if NormAll(f, xs).None? && f(xs[0]).Some? {
        var i :| 0 <= i < |xs[1..]| && f(xs[1..][i]).None?;
        assert f(xs[i + 1]).None?;
      }
      if NormAll(f, xs).Some? {
        forall i | 0 <= i < |xs| ensures f(xs[i]) == Some(NormAll(f, xs).value[i]) {
          if i > 0 { assert xs[i] == xs[1..][i - 1]; }
        }
      }
    }
  }

  lemma NormAllIff<T(!new)>(f: T -> Option<T>, xs: seq<T>, ys: seq<T>)
    ensures NormAll(f, xs) == Some(ys) <==> |ys| == |xs| && forall i :: 0 <= i < |xs| ==> f(xs[i]) == Some(ys[i])
  {
    NormAllEach(f, xs);
    if |ys| == |xs| && forall i :: 0 <= i < |xs| ==> f(xs[i]) == Some(ys[i]) {
      assert NormAll(f, xs).value == ys;
    }
  }

  /** A list of elements that are left alone is left alone. */
  lemma NormAllFixed<T(!new)>(f: T -> Option<T>, xs: seq<T>)
    requires forall i :: 0 <= i < |xs| ==> f(xs[i]) == Some(xs[i])
    ensures NormAll(f, xs) == Some(xs)
  {
    NormAllEach(f, xs);
    assert NormAll(f, xs).value == xs;
  }

  /** A function that leaves its own results alone. */
  ghost predicate Settles<T(!new)>(f: T -> Option<T>) { forall x :: f(x).Some? ==> f(f(x).value) == f(x) }

  lemma {:induction false} NormAllSettles<T(!new)>(f: T -> Option<T>, xs: seq<T>)
    requires Settles(f) && NormAll(f, xs).Some?
    ensures NormAll(f, NormAll(f, xs).value) == NormAll(f, xs)
    ensures forall y :: y in NormAll(f, xs).value ==> f(y) == Some(y)
  {
    NormAllEach(f, xs);
    NormAllFixed(f, NormAll(f, xs).value);
  }

  // ---------------------------------------------------------------- sorting by distinct keys

  lemma StrSortTwice(s: seq<string>)
    ensures Sort(StrLe, Sort(StrLe, s)) == Sort(StrLe, s)
    ensures forall x :: x in Sort(StrLe, s) <==> x in s
    ensures NoRepeats(s) ==> NoRepeats(Sort(StrLe, s))
  {
    StrLePreOrder();
    SortIsSorted(StrLe, s);
    SortIsPermutation(StrLe, s);
    MembersOfMultiset(Sort(StrLe, s), s);
    forall x, y | StrLe(x, y) && StrLe(y, x) ensures x == y { StrLeTotal(x, y); }
    SortOfSorted(StrLe, Sort(StrLe, s));
    if NoRepeats(s) { NoRepeatsPermutation(s, Sort(StrLe, s)); }
  }

  // ---------------------------------------------------------------- words

  function LowerTrim(s: string): string { ToLower(Trim(s)) }
  function UpperTrim(s: string): string { ToUpper(Trim(s)) }

  function Trims(xs: seq<string>): (r: seq<string>)
    ensures |r| == |xs| && forall i :: 0 <= i < |xs| ==> r[i] == Trim(xs[i])
  {
    seq(|xs|, i requires 0 <= i < |xs| => Trim(xs[i]))
  }

  lemma TrimsTwice(xs: seq<string>)
    ensures Trims(Trims(xs)) == Trims(xs)
  {
    forall i | 0 <= i < |xs| ensures Trims(Trims(xs))[i] == Trims(xs)[i] { TrimTwice(xs[i]); }
  }

  function LowerTrims(xs: seq<string>): (r: seq<string>)
    ensures |r| == |xs| && forall i :: 0 <= i < |xs| ==> r[i] == LowerTrim(xs[i])
  {
    seq(|xs|, i requires 0 <= i < |xs| => LowerTrim(xs[i]))
  }

  function UpperTrims(xs: seq<string>): (r: seq<string>)
    ensures |r| == |xs| && forall i :: 0 <= i < |xs| ==> r[i] == UpperTrim(xs[i])
  {
    seq(|xs|, i requires 0 <= i < |xs| => UpperTrim(xs[i]))
  }

  lemma LowerTrimsFixed(xs: seq<string>)
    requires forall x :: x in xs ==> LowerTrim(x) == x
    ensures LowerTrims(xs) == xs
  {
  }

  lemma UpperTrimsFixed(xs: seq<string>)
    requires forall x :: x in xs ==> UpperTrim(x) == x
    ensures UpperTrims(xs) == xs
  {
  }

  lemma UpperTrimsMembers(xs: seq<string>)
    ensures forall y :: y in UpperTrims(xs) ==> UpperTrim(y) == y
  {
    forall y | y in UpperTrims(xs) ensures UpperTrim(y) == y {
      var i :| 0 <= i < |xs| && y == UpperTrim(xs[i]);
      UpperTrimTwice(xs[i]);
    }
  }

  lemma LowerTrimsMembers(xs: seq<string>)
    ensures forall y :: y in LowerTrims(xs) ==> LowerTrim(y) == y
  {
    forall y | y in LowerTrims(xs) ensures LowerTrim(y) == y {
      var i :| 0 <= i < |xs| && y == LowerTrim(xs[i]);
      LowerTrimTwice(xs[i]);
    }
  }

  // ---------------------------------------------------------------- name patterns

  predicate WordChars(s: string) { forall i :: 0 <= i < |s| ==> NameChar(s[i]) }

  /** `^[a-z][a-z0-9_]{1,62}$` */
  predicate PackageName(s: string) { 2 <= |s| <= 63 && IsLower(s[0]) && WordChars(s) }

  /** `^[a-z][a-z0-9_]{1,63}$` */
  predicate TableName(s: string) { ParameterName(s) }

  /** `^[A-Z][A-Za-z0-9]{1,63}$` */
  predicate TypeName(s: string) {
    2 <= |s| <= 64 && IsUpper(s[0]) && forall i :: 0 <= i < |s| ==> IsUpper(s[i]) || IsLower(s[i]) || IsDigit(s[i])
  }

  /** `^[a-z][a-z0-9_]*$` */
  predicate WordName(s: string) { |s| > 0 && IsLower(s[0]) && WordChars(s) }

  /** `^[a-z][a-z0-9_]*:[a-z][a-z0-9_]*$` */
  predicate PermissionId(s: string) {
    var parts := Split(s, ':'); |parts| == 2 && WordName(parts[0]) && WordName(parts[1])
  }

  /** `^[A-Za-z][A-Za-z0-9-]{0,63}$` */
  predicate HeaderName(s: string) {
    1 <= |s| <= 64 && WordLetter(s[0]) && forall i :: 0 <= i < |s| ==> WordLetter(s[i]) || IsDigit(s[i]) || s[i] == '-'
  }
}
