/** Facts about duplicate-free sequences shared by the view and the shelf list. */
module Seqs {

  /** No value occurs twice. */
  ghost predicate NoDup<T(!new)>(s: seq<T>) {
    forall x :: multiset(s)[x] <= 1
  }

  /** Two equal entries make a value occur at least twice. */
  lemma RepeatCounts<T>(s: seq<T>, i: nat, j: nat)
    requires i < j < |s| && s[i] == s[j]
    ensures multiset(s)[s[i]] >= 2
  {
    assert s == s[..j] + [s[j]] + s[j + 1..];
    assert s[i] in s[..j];
  }

  /** In a duplicate-free sequence, different positions hold different values. */
  lemma NoDupDistinct<T(!new)>(s: seq<T>)
    requires NoDup(s)
    ensures forall i, j :: 0 <= i < j < |s| ==> s[i] != s[j]
  {
    forall i, j | 0 <= i < j < |s| ensures s[i] != s[j] {
      if s[i] == s[j] {
        RepeatCounts(s, i, j);
      }
    }
  }

  predicate StrictlyIncreasing(s: seq<nat>) {
    forall i, j :: 0 <= i < j < |s| ==> s[i] < s[j]
  }

  lemma {:induction false} IncreasingNoDup(s: seq<nat>)
    requires StrictlyIncreasing(s)
    ensures NoDup(s)
  {
    if s != [] {
      var p := s[..|s| - 1];
      IncreasingNoDup(p);
      assert s == p + [s[|s| - 1]];
      assert s[|s| - 1] !in p;
    }
  }

  /** Two duplicate-free sequences with the same members are permutations of each other. */
  lemma SameMembersPerm<T(!new)>(a: seq<T>, b: seq<T>)
    requires NoDup(a) && NoDup(b)
    requires forall x :: x in a <==> x in b
    ensures multiset(a) == multiset(b)
    ensures |a| == |b|
  {
    forall x ensures multiset(a)[x] == multiset(b)[x] {
      assert x in a <==> x in multiset(a);
      assert x in b <==> x in multiset(b);
    }
    assert multiset(a) == multiset(b);
    assert |multiset(a)| == |a| && |multiset(b)| == |b|;
  }
}
