/**
 * The comparison sort behind `handleSort` and the shelf list: the
 * comparator of handleSort and a stable sort driven by it.
 *
 * `Array.prototype.sort` is stable (ECMAScript 2019 onwards), so for a
 * consistent comparator its result is fully determined: the sorted
 * arrangement that keeps equal keys in their original order. `SortBy` is
 * an insertion sort computing that arrangement, and
 * `SortedStableIsSortBy` shows that nothing else qualifies.
 */
module Sorting {
  import opened Text

  datatype Direction = Asc | Desc

  /** The `'asc'` / `'desc'` toggle of handleSort. */
  function Flip(d: Direction): (e: Direction)
    ensures e != d
  {
    if d == Asc then Desc else Asc
  }

  /**
   * The comparator handleSort passes to `sort`, on keys already lower-cased:
   * negative when `a` goes first, positive when `b` does, zero on a tie.
   */
  function Compare(a: string, b: string, dir: Direction): (c: int)
    ensures -1 <= c <= 1
    ensures c == 0 <==> a == b
    ensures c < 0 <==> (if dir == Asc then LexLess(a, b) else LexLess(b, a))
  {
    LexLessIrreflexive(a);
    LexLessAsymmetric(a, b);
    LexLessTotal(a, b);
    if LexLess(a, b) then (if dir == Asc then -1 else 1)
    else if LexLess(b, a) then (if dir == Asc then 1 else -1)
    else 0
  }

  /** The comparator is consistent: swapping its arguments negates it. */
  lemma CompareAntisymmetric(a: string, b: string, dir: Direction)
    ensures Compare(b, a, dir) == -Compare(a, b, dir)
  {
    LexLessAsymmetric(a, b);
  }

  /** "Goes no later than" is transitive. */
  lemma CompareLeTransitive(a: string, b: string, c: string, dir: Direction)
    requires Compare(a, b, dir) <= 0 && Compare(b, c, dir) <= 0
    ensures Compare(a, c, dir) <= 0
  {
    if a != b && b != c {
      if dir == Asc {
        LexLessTransitive(a, b, c);
      } else {
        LexLessTransitive(c, b, a);
      }
    }
  }

  /** Every pair of elements is in comparator order. */
  predicate Sorted<T>(s: seq<T>, key: T -> string, dir: Direction) {
    forall i, j :: 0 <= i < j < |s| ==> Compare(key(s[i]), key(s[j]), dir) <= 0
  }

  /** No element of `s` has to go before key `k`. */
  predicate AllAfter<T>(k: string, s: seq<T>, key: T -> string, dir: Direction) {
    forall i :: 0 <= i < |s| ==> Compare(k, key(s[i]), dir) <= 0
  }

  /**
   * Puts `x` in front of the first element that does not strictly precede
   * it, so that `x` stays ahead of the elements whose key ties with its own.
   */
  function Insert<T>(x: T, s: seq<T>, key: T -> string, dir: Direction): (r: seq<T>)
    ensures multiset(r) == multiset(s) + multiset{x}
  {
    if s == [] || Compare(key(s[0]), key(x), dir) >= 0 then [x] + s
    else
      assert s == [s[0]] + s[1..];
      [s[0]] + Insert(x, s[1..], key, dir)
  }

  /** Stable sort of `s` by `key` in direction `dir`: a sorted permutation. */
  function SortBy<T>(s: seq<T>, key: T -> string, dir: Direction): (r: seq<T>)
    ensures multiset(r) == multiset(s)
    ensures |r| == |s|
    ensures Sorted(r, key, dir)
  {
    if s == [] then []
    else
      var rest := SortBy(s[1..], key, dir);
      InsertSorted(s[0], rest, key, dir);
      assert s == [s[0]] + s[1..];
      Insert(s[0], rest, key, dir)
  }

  lemma SortedCons<T>(y: T, t: seq<T>, key: T -> string, dir: Direction)
    requires AllAfter(key(y), t, key, dir) && Sorted(t, key, dir)
    ensures Sorted([y] + t, key, dir)
  {
    var s := [y] + t;
    forall i, j | 0 <= i < j < |s|
      ensures Compare(key(s[i]), key(s[j]), dir) <= 0
    {
      if i == 0 {
        assert s[j] == t[j - 1];
      } else {
        assert s[i] == t[i - 1] && s[j] == t[j - 1];
      }
    }
  }

  lemma {:induction false} InsertAllAfter<T>(k: string, x: T, s: seq<T>, key: T -> string, dir: Direction)
    requires AllAfter(k, s, key, dir) && Compare(k, key(x), dir) <= 0
    ensures AllAfter(k, Insert(x, s, key, dir), key, dir)
  {
    if s == [] || Compare(key(s[0]), key(x), dir) >= 0 {
      var r := [x] + s;
      forall i | 0 <= i < |r| ensures Compare(k, key(r[i]), dir) <= 0 {
        if i > 0 { assert r[i] == s[i - 1]; }
      }
    } else {
      InsertAllAfter(k, x, s[1..], key, dir);
      var r := [s[0]] + Insert(x, s[1..], key, dir);
      forall i | 0 <= i < |r| ensures Compare(k, key(r[i]), dir) <= 0 {
        if i > 0 { assert r[i] == Insert(x, s[1..], key, dir)[i - 1]; }
      }
    }
  }

  /** Inserting into a sorted sequence keeps it sorted. */
  lemma {:induction false} InsertSorted<T>(x: T, s: seq<T>, key: T -> string, dir: Direction)
    requires Sorted(s, key, dir)
    ensures Sorted(Insert(x, s, key, dir), key, dir)
  {
    if s == [] || Compare(key(s[0]), key(x), dir) >= 0 {
      if s != [] {
        CompareAntisymmetric(key(s[0]), key(x), dir);
        forall j | 0 <= j < |s| ensures Compare(key(x), key(s[j]), dir) <= 0 {
          if j > 0 { CompareLeTransitive(key(x), key(s[0]), key(s[j]), dir); }
        }
      }
      SortedCons(x, s, key, dir);
    } else {
      var t := s[1..];
      assert Sorted(t, key, dir) by {
        forall i, j | 0 <= i < j < |t| ensures Compare(key(t[i]), key(t[j]), dir) <= 0 {
          assert t[i] == s[i + 1] && t[j] == s[j + 1];
        }
      }
      assert AllAfter(key(s[0]), t, key, dir) by {
        forall i | 0 <= i < |t| ensures Compare(key(s[0]), key(t[i]), dir) <= 0 {
          assert t[i] == s[i + 1];
        }
      }
      InsertSorted(x, t, key, dir);
      InsertAllAfter(key(s[0]), x, t, key, dir);
      SortedCons(s[0], Insert(x, t, key, dir), key, dir);
    }
  }

  /** The elements of `s` whose key is `k`, in their order in `s`. */
  function FilterKey<T>(s: seq<T>, key: T -> string, k: string): (r: seq<T>)
    ensures |r| <= |s|
    ensures forall i :: 0 <= i < |r| ==> key(r[i]) == k
  {
    if s == [] then []
    else (if key(s[0]) == k then [s[0]] else []) + FilterKey(s[1..], key, k)
  }

  lemma {:induction false} InsertFilterKey<T>(x: T, s: seq<T>, key: T -> string, dir: Direction, k: string)
    ensures FilterKey(Insert(x, s, key, dir), key, k)
         == (if key(x) == k then [x] else []) + FilterKey(s, key, k)
  {
    if s == [] || Compare(key(s[0]), key(x), dir) >= 0 {
      assert ([x] + s)[1..] == s;
    } else {
      InsertFilterKey(x, s[1..], key, dir, k);
      var i := Insert(x, s[1..], key, dir);
      assert ([s[0]] + i)[1..] == i;
      assert key(s[0]) != key(x);
    }
  }

  /**
   * Stability: sorting keeps the elements that share a key in the order
   * they had before the sort.
   */
  lemma {:induction false} SortByStable<T>(s: seq<T>, key: T -> string, dir: Direction, k: string)
    ensures FilterKey(SortBy(s, key, dir), key, k) == FilterKey(s, key, k)
  {
    if s != [] {
      SortByStable(s[1..], key, dir, k);
      InsertFilterKey(s[0], SortBy(s[1..], key, dir), key, dir, k);
    }
  }

  lemma FilterKeyHead<T>(s: seq<T>, key: T -> string)
    ensures s != [] ==> FilterKey(s, key, key(s[0])) == [s[0]] + FilterKey(s[1..], key, key(s[0]))
  {
  }

  lemma {:induction false} FilterKeyWitness<T>(s: seq<T>, key: T -> string, k: string) returns (j: nat)
    requires FilterKey(s, key, k) != []
    ensures j < |s| && key(s[j]) == k
  {
    if key(s[0]) == k {
      j := 0;
    } else {
      var j' := FilterKeyWitness(s[1..], key, k);
      j := j' + 1;
    }
  }

  /** Of two sorted sequences, the first element goes no later than any key present in the other. */
  lemma HeadFirst<T>(r: seq<T>, key: T -> string, dir: Direction, k: string)
    requires r != [] && Sorted(r, key, dir) && FilterKey(r, key, k) != []
    ensures Compare(key(r[0]), k, dir) <= 0
  {
    var j := FilterKeyWitness(r, key, k);
  }

  /**
   * A sorted arrangement is determined by the order it keeps among equal
   * keys: two sorted sequences that agree on every key's elements are equal.
   */
  lemma {:induction false} SortedStableUnique<T>(r1: seq<T>, r2: seq<T>, key: T -> string, dir: Direction)
    requires Sorted(r1, key, dir) && Sorted(r2, key, dir)
    requires forall k :: FilterKey(r1, key, k) == FilterKey(r2, key, k)
    ensures r1 == r2
  {
    if r1 != [] && r2 != [] {
      var k1, k2 := key(r1[0]), key(r2[0]);
      FilterKeyHead(r1, key);
      FilterKeyHead(r2, key);
      HeadFirst(r2, key, dir, k1);
      HeadFirst(r1, key, dir, k2);
      CompareAntisymmetric(k1, k2, dir);
      assert k1 == k2;
      assert FilterKey(r1, key, k1)[0] == r1[0];
      assert FilterKey(r2, key, k1)[0] == r2[0];
      assert r1[0] == r2[0];
      var t1, t2 := r1[1..], r2[1..];
      forall k ensures FilterKey(t1, key, k) == FilterKey(t2, key, k) {
        var p := if k1 == k then [r1[0]] else [];
        assert FilterKey(r1, key, k) == p + FilterKey(t1, key, k);
        assert FilterKey(r2, key, k) == p + FilterKey(t2, key, k);
        assert FilterKey(t1, key, k) == (p + FilterKey(t1, key, k))[|p|..];
        assert FilterKey(t2, key, k) == (p + FilterKey(t2, key, k))[|p|..];
      }
      assert Sorted(t1, key, dir) by {
        forall i, j | 0 <= i < j < |t1| ensures Compare(key(t1[i]), key(t1[j]), dir) <= 0 {
          assert t1[i] == r1[i + 1] && t1[j] == r1[j + 1];
        }
      }
      assert Sorted(t2, key, dir) by {
        forall i, j | 0 <= i < j < |t2| ensures Compare(key(t2[i]), key(t2[j]), dir) <= 0 {
          assert t2[i] == r2[i + 1] && t2[j] == r2[j + 1];
        }
      }
      SortedStableUnique(t1, t2, key, dir);
      assert r1 == [r1[0]] + t1 && r2 == [r2[0]] + t2;
    } else if r1 != [] {
      FilterKeyHead(r1, key);
      assert false;
    } else if r2 != [] {
      FilterKeyHead(r2, key);
      assert false;
    }
  }

  /**
   * `SortBy` is the stable sort: any sorted sequence that keeps the
   * elements of each key in their order in `s` is `SortBy(s)`.
   */
  lemma SortedStableIsSortBy<T>(s: seq<T>, r: seq<T>, key: T -> string, dir: Direction)
    requires Sorted(r, key, dir)
    requires forall k :: FilterKey(r, key, k) == FilterKey(s, key, k)
    ensures r == SortBy(s, key, dir)
  {
    forall k ensures FilterKey(r, key, k) == FilterKey(SortBy(s, key, dir), key, k) {
      SortByStable(s, key, dir, k);
    }
    SortedStableUnique(r, SortBy(s, key, dir), key, dir);
  }

  /**
   * Re-sorting by the same key forgets the previous sort: the outcome
   * depends only on the order before the first sort. In particular the
   * second click on a column does not reverse the first result when keys
   * tie; it puts tied elements back in their pre-sort order.
   */
  lemma ResortSameKey<T>(s: seq<T>, key: T -> string, d1: Direction, d2: Direction)
    ensures SortBy(SortBy(s, key, d1), key, d2) == SortBy(s, key, d2)
  {
    var first := SortBy(s, key, d1);
    forall k ensures FilterKey(SortBy(first, key, d2), key, k) == FilterKey(s, key, k) {
      SortByStable(first, key, d2, k);
      SortByStable(s, key, d1, k);
    }
    SortedStableIsSortBy(s, SortBy(first, key, d2), key, d2);
  }

  /** The sequence back to front. */
  function Reverse<T>(s: seq<T>): (r: seq<T>)
    ensures |r| == |s| && forall i :: 0 <= i < |s| ==> r[i] == s[|s| - 1 - i]
  {
    seq(|s|, i requires 0 <= i < |s| => s[|s| - 1 - i])
  }

  /** No two elements of `s` share a key. */
  predicate DistinctKeys<T>(s: seq<T>, key: T -> string) {
    forall i, j :: 0 <= i < j < |s| ==> key(s[i]) != key(s[j])
  }

  /** Comparing in the other direction is comparing the other way round. */
  lemma CompareFlip(a: string, b: string, dir: Direction)
    ensures Compare(a, b, Flip(dir)) == Compare(b, a, dir)
  {
  }

  /** Read back to front, a sorted sequence is sorted the other way. */
  lemma ReverseSorted<T>(s: seq<T>, key: T -> string, dir: Direction)
    requires Sorted(s, key, dir)
    ensures Sorted(Reverse(s), key, Flip(dir))
  {
    var r, n := Reverse(s), |s|;
    forall i, j | 0 <= i < j < n ensures Compare(key(r[i]), key(r[j]), Flip(dir)) <= 0 {
      assert Compare(key(s[n - 1 - j]), key(s[n - 1 - i]), dir) <= 0;
      CompareFlip(key(s[n - 1 - j]), key(s[n - 1 - i]), dir);
    }
  }

  /** `FilterKey` keeps exactly the elements of `s` with key `k`. */
  lemma {:induction false} FilterKeyMember<T>(s: seq<T>, key: T -> string, k: string, x: T)
    ensures x in FilterKey(s, key, k) <==> x in s && key(x) == k
  {
    if s != [] {
      FilterKeyMember(s[1..], key, k, x);
      assert s == [s[0]] + s[1..];
    }
  }

  /** Without shared keys, each key keeps at most one element. */
  lemma {:induction false} FilterKeyDistinct<T>(s: seq<T>, key: T -> string, k: string)
    requires DistinctKeys(s, key)
    ensures |FilterKey(s, key, k)| <= 1
  {
    if s != [] {
      var t := s[1..];
      assert DistinctKeys(t, key) by {
        forall i, j | 0 <= i < j < |t| ensures key(t[i]) != key(t[j]) {
          assert t[i] == s[i + 1] && t[j] == s[j + 1];
        }
      }
      FilterKeyDistinct(t, key, k);
      if key(s[0]) == k && FilterKey(t, key, k) != [] {
        var j := FilterKeyWitness(t, key, k);
        assert false;
      }
    }
  }

  /** Without shared keys, sequences with the same members agree on every key. */
  lemma FilterKeySameMembers<T>(r: seq<T>, s: seq<T>, key: T -> string, k: string)
    requires DistinctKeys(r, key) && DistinctKeys(s, key)
    requires forall x :: x in r <==> x in s
    ensures FilterKey(r, key, k) == FilterKey(s, key, k)
  {
    FilterKeyDistinct(r, key, k);
    FilterKeyDistinct(s, key, k);
    var a, b := FilterKey(r, key, k), FilterKey(s, key, k);
    if a != [] {
      FilterKeyMember(r, key, k, a[0]);
      FilterKeyMember(s, key, k, a[0]);
      assert b == [b[0]] && a == [a[0]];
    } else if b != [] {
      FilterKeyMember(r, key, k, b[0]);
      FilterKeyMember(s, key, k, b[0]);
    }
  }

  /**
   * With no shared keys, clicking the sorted column again reverses the view:
   * sorting a sorted sequence the other way is reading it back to front.
   * With shared keys this fails (see `ResortSameKey`).
   */
  lemma ResortReverses<T>(s: seq<T>, key: T -> string, dir: Direction)
    requires Sorted(s, key, dir) && DistinctKeys(s, key)
    ensures SortBy(s, key, Flip(dir)) == Reverse(s)
  {
    var r := Reverse(s);
    ReverseSorted(s, key, dir);
    assert DistinctKeys(r, key) by {
      forall i, j | 0 <= i < j < |r| ensures key(r[i]) != key(r[j]) {
        assert r[i] == s[|s| - 1 - i] && r[j] == s[|s| - 1 - j];
      }
    }
    forall x ensures x in r <==> x in s {
      if x in s {
        var i :| 0 <= i < |s| && s[i] == x;
        assert r[|s| - 1 - i] == x;
      }
    }
    forall k ensures FilterKey(r, key, k) == FilterKey(s, key, k) {
      FilterKeySameMembers(r, s, key, k);
    }
    SortedStableIsSortBy(s, r, key, Flip(dir));
  }
}
