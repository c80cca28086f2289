/**
 * Sorting by a string key, as `slice::sort` (on strings) and `slice::sort_by`
 * comparing the first component do. The library's algorithm is not the
 * subject here: an insertion sort stands for it, and it is proved to give
 * what the library promises, a permutation of the input ordered by key.
 * When the keys are distinct that result is unique (SortedByKeyUnique), so
 * the choice of algorithm cannot show.
 */
module Sorting {
  import opened Strings

  predicate SortedByKey<T>(s: seq<T>, key: T -> string) {
    forall i, j :: 0 <= i < j < |s| ==> LexLessEq(key(s[i]), key(s[j]))
  }

  predicate KeysDistinct<T>(s: seq<T>, key: T -> string) {
    forall i, j :: 0 <= i < j < |s| ==> key(s[i]) != key(s[j])
  }

  method SortByKey<T>(a: array<T>, key: T -> string)
    modifies a
    ensures SortedByKey(a[..], key)
    ensures multiset(a[..]) == multiset(old(a[..]))
  {
    var i := 0;
    while i < a.Length
      invariant 0 <= i <= a.Length
      invariant SortedByKey(a[..i], key)
      invariant multiset(a[..]) == multiset(old(a[..]))
    {
      InsertAt(a, i, key);
      i := i + 1;
    }
    assert a[..] == a[..a.Length];
  }

  /** One pass of the insertion sort: `a[i]` moves left into the sorted `a[..i]`. */
  method InsertAt<T>(a: array<T>, i: nat, key: T -> string)
    requires i < a.Length
    requires SortedByKey(a[..i], key)
    modifies a
    ensures SortedByKey(a[..i + 1], key)
    ensures multiset(a[..]) == multiset(old(a[..]))
  {
    var j := i;
    while j > 0 && !LexLessEq(key(a[j - 1]), key(a[j]))
      invariant 0 <= j <= i
      invariant multiset(a[..]) == multiset(old(a[..]))
      invariant forall p, q :: 0 <= p < q <= i && p != j && q != j ==> LexLessEq(key(a[p]), key(a[q]))
      invariant forall q :: j < q <= i ==> LexLessEq(key(a[j]), key(a[q]))
    {
      LexTotal(key(a[j - 1]), key(a[j]));
      Swap(a, j - 1, j);
      j := j - 1;
    }
    forall p | 0 <= p < j ensures LexLessEq(key(a[p]), key(a[j])) {
      if p < j - 1 {
        LexTransitive(key(a[p]), key(a[j - 1]), key(a[j]));
      }
    }
  }

  method Swap<T>(a: array<T>, i: nat, j: nat)
    requires i < j < a.Length
    modifies a
    ensures a[..] == old(a[..])[i := old(a[j])][j := old(a[i])]
    ensures multiset(a[..]) == multiset(old(a[..]))
  {
    a[i], a[j] := a[j], a[i];
  }

  /** Two key-sorted sequences with distinct keys and the same elements are equal. */
  lemma {:induction false} SortedByKeyUnique<T>(s: seq<T>, t: seq<T>, key: T -> string)
    requires SortedByKey(s, key) && SortedByKey(t, key)
    requires KeysDistinct(s, key) && KeysDistinct(t, key)
    requires forall x :: x in s <==> x in t
    ensures s == t
  {
    if s == [] {
      forall x ensures multiset(t)[x] == 0 {
        assert x !in s;
      }
      assert multiset(t) == multiset{};
    } else {
      assert s[0] in t;
      assert t != [];
      assert t[0] in s;
      var p :| 0 <= p < |t| && t[p] == s[0];
      var q :| 0 <= q < |s| && s[q] == t[0];
      LexReflexive(key(s[0]));
      LexReflexive(key(t[0]));
      assert LexLessEq(key(s[0]), key(s[q]));
      assert LexLessEq(key(t[0]), key(t[p]));
      LexAntisymmetric(key(s[0]), key(t[0]));
      assert key(t[p]) == key(t[0]);
      assert p == 0;
      forall x ensures x in s[1..] <==> x in t[1..] {
        if x in s[1..] {
          var i :| 1 <= i < |s| && s[i] == x;
          assert x in s;
          var k :| 0 <= k < |t| && t[k] == x;
          assert key(s[0]) != key(s[i]);
          assert k != 0;
          assert t[1..][k - 1] == x;
        }
        if x in t[1..] {
          var i :| 1 <= i < |t| && t[i] == x;
          assert x in t;
          var k :| 0 <= k < |s| && s[k] == x;
          assert key(t[0]) != key(t[i]);
          assert k != 0;
          assert s[1..][k - 1] == x;
        }
      }
      SortedByKeyUnique(s[1..], t[1..], key);
      assert s == [s[0]] + s[1..] && t == [t[0]] + t[1..];
    }
  }

  /** In a sequence without repeated elements, no element is counted twice. */
  lemma {:induction false} CountAtMostOne<T>(t: seq<T>, x: T)
    requires forall i, j :: 0 <= i < j < |t| ==> t[i] != t[j]
    ensures multiset(t)[x] <= 1
  {
    if t != [] {
      CountAtMostOne(t[1..], x);
      assert t == [t[0]] + t[1..];
      assert t[0] == x ==> x !in t[1..];
    }
  }

  /** An element at two positions is counted at least twice. */
  lemma CountTwice<T>(s: seq<T>, i: nat, j: nat)
    requires i < j < |s| && s[i] == s[j]
    ensures multiset(s)[s[i]] >= 2
  {
    assert s == s[..j] + s[j..];
    assert s[i] == s[..j][i];
    assert s[j] == s[j..][0];
  }

  /** Rearranging a sequence whose keys are distinct keeps them distinct. */
  lemma PermutationKeepsKeysDistinct<T>(s: seq<T>, t: seq<T>, key: T -> string)
    requires multiset(s) == multiset(t)
    requires KeysDistinct(t, key)
    ensures KeysDistinct(s, key)
  {
    forall i, j | 0 <= i < j < |s| ensures key(s[i]) != key(s[j]) {
      assert s[i] in multiset(t) && s[j] in multiset(t);
      var p :| 0 <= p < |t| && t[p] == s[i];
      var q :| 0 <= q < |t| && t[q] == s[j];
      if p == q {
        CountTwice(s, i, j);
        CountAtMostOne(t, s[i]);
        assert false;
      }
    }
  }
}
