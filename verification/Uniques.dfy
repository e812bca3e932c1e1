/** Trim, drop empty, deduplicate, sort: the routine that `uniqueStrings`, `uniquePaths` and the
    permission service's `unique` share. */
module Uniques {
  import opened Text
  import opened Ordering

  /** First occurrences of the trimmed non-empty values, in order. */
  function Dedup(values: seq<string>): seq<string> {
    if values == [] then []
    else var rest, v := Dedup(values[..|values| - 1]), Trim(values[|values| - 1]);
         if v == "" || v in rest then rest else rest + [v]
  }

  function Unique(values: seq<string>): seq<string> { Sort(StrLe, Dedup(values)) }

  predicate NoRepeats(s: seq<string>) { forall i, j :: 0 <= i < j < |s| ==> s[i] != s[j] }

  /** Strictly increasing: ordered and free of repeats. */
  ghost predicate Increasing(s: seq<string>) { SortedBy(StrLe, s) && NoRepeats(s) }

  /** Some value trims to `x`. */
  ghost predicate Occurs(values: seq<string>, x: string) {
    exists i :: 0 <= i < |values| && Trim(values[i]) == x
  }

  lemma OccursSnoc(front: seq<string>, last: string, x: string)
    ensures Occurs(front + [last], x) <==> Occurs(front, x) || Trim(last) == x
  {
    var all := front + [last];
    assert all[|front|] == last;
    if Occurs(front, x) {
      var i :| 0 <= i < |front| && Trim(front[i]) == x;
      assert Trim(all[i]) == x;
    }
  }

  lemma {:induction false} DedupMembers(values: seq<string>, x: string)
    ensures x in Dedup(values) <==> x != "" && Occurs(values, x)
  {
    if values != [] {
      var front, last := values[..|values| - 1], values[|values| - 1];
      DedupMembers(front, x);
      OccursSnoc(front, last, x);
      assert values == front + [last];
    }
  }

  lemma {:induction false} DedupNoRepeats(values: seq<string>)
    ensures NoRepeats(Dedup(values))
  {
    if values != [] { DedupNoRepeats(values[..|values| - 1]); }
  }

  lemma NoRepeatsPermutation(a: seq<string>, b: seq<string>)
    requires multiset(a) == multiset(b) && NoRepeats(a)
    ensures NoRepeats(b)
  {
    forall i, j | 0 <= i < j < |b| ensures b[i] != b[j] {
      if b[i] == b[j] {
        assert b == b[..i] + [b[i]] + b[i + 1..j] + [b[j]] + b[j + 1..];
        assert multiset(b)[b[i]] >= 2;
        NoRepeatsCount(a, b[i]);
      }
    }
  }

  /** The result is the strictly increasing list of the trimmed non-empty values. */
  lemma UniqueCorrect(values: seq<string>)
    ensures Increasing(Unique(values))
    ensures forall x :: x in Unique(values) <==> x != "" && Occurs(values, x)
    ensures forall x :: x in Unique(values) ==> x != "" && Trim(x) == x
  {
    StrLePreOrder();
    SortIsSorted(StrLe, Dedup(values));
    SortIsPermutation(StrLe, Dedup(values));
    DedupNoRepeats(values);
    NoRepeatsPermutation(Dedup(values), Unique(values));
    MembersOfMultiset(Dedup(values), Unique(values));
    forall x ensures x in Unique(values) <==> x != "" && Occurs(values, x) {
      DedupMembers(values, x);
    }
    forall x | x in Unique(values) ensures Trim(x) == x {
      var i :| 0 <= i < |values| && Trim(values[i]) == x;
      TrimTwice(values[i]);
    }
  }

  /** That description leaves no choice. */
  lemma {:induction false} IncreasingIsUnique(a: seq<string>, b: seq<string>)
    requires Increasing(a) && Increasing(b) && forall x :: x in a <==> x in b
    ensures a == b
  {
    NoRepeatsSameMembers(a, b);
    forall x, y | x in a && y in a && StrLe(x, y) && StrLe(y, x) ensures x == y { StrLeTotal(x, y); }
    SortedPermutationIsUnique(StrLe, a, b);
  }

  lemma NoRepeatsSameMembers(a: seq<string>, b: seq<string>)
    requires NoRepeats(a) && NoRepeats(b) && forall x :: x in a <==> x in b
    ensures multiset(a) == multiset(b)
  {
    forall x ensures multiset(a)[x] == multiset(b)[x] {
      NoRepeatsCount(a, x);
      NoRepeatsCount(b, x);
    }
  }

  lemma {:induction false} NoRepeatsCount(a: seq<string>, x: string)
    requires NoRepeats(a)
    ensures multiset(a)[x] == if x in a then 1 else 0
  {
    if a != [] {
      var front, last := a[..|a| - 1], a[|a| - 1];
      NoRepeatsCount(front, x);
      assert a == front + [last];
    }
  }

  /** Running the routine again changes nothing. */
  lemma UniqueTwice(values: seq<string>)
    ensures Unique(Unique(values)) == Unique(values)
  {
    var u := Unique(values);
    UniqueCorrect(values);
    UniqueCorrect(u);
    forall x ensures x in Unique(u) <==> x in u {
      if x in u {
        var i :| 0 <= i < |u| && u[i] == x;
        assert Trim(u[i]) == x;
        assert Occurs(u, x);
      }
      if x in Unique(u) {
        var i :| 0 <= i < |u| && Trim(u[i]) == x;
        assert u[i] in u;
      }
    }
    IncreasingIsUnique(Unique(u), u);
  }

  method UniqueStrings(values: seq<string>) returns (result: seq<string>)
    ensures result == Unique(values)
    ensures Increasing(result)
    ensures forall x :: x in result <==> x != "" && Occurs(values, x)
  {
    var seen: set<string> := {};
    result := [];
    for i := 0 to |values|
      invariant result == Dedup(values[..i]) && seen == set x | x in result
    {
      assert values[..i + 1][..i] == values[..i];
      var value := Trim(values[i]);
      if value == "" || value in seen {
        continue;
      }
      seen, result := seen + {value}, result + [value];
    }
    assert values[..|values|] == values;
    result := Sort(StrLe, result);
    UniqueCorrect(values);
  }
}
