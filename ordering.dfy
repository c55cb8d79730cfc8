/** Sort keys and the in-place sort that stands for Swift's `sort(by:)` and
    for the sort descriptors of a fetch request. */
module Ordering {
  import opened Text
  import opened Seqs

  /** A sort key: a number (dates, prices) or a string (names, brands).
      A descending sort on numbers uses the negated number as its key. */
  datatype Key = Num(n: int) | Str(s: string)

  /** Strict order on keys; numbers come before strings, which never arises
      as every sort compares keys of one kind only. */
  predicate KeyLess(a: Key, b: Key) {
    match (a, b)
    case (Num(x), Num(y)) => x < y
    case (Str(x), Str(y)) => TextLess(x, y)
    case (Num(_), Str(_)) => true
    case (Str(_), Num(_)) => false
  }

  lemma KeyLessIrreflexive(a: Key)
    ensures !KeyLess(a, a)
  {
    if a.Str? { TextLessIrreflexive(a.s); }
  }

  /** "Not after" is transitive: the key order is a total preorder. */
  lemma KeyNotAfterTransitive(a: Key, b: Key, c: Key)
    requires !KeyLess(b, a) && !KeyLess(c, b)
    ensures !KeyLess(c, a)
  {
    if a.Str? && b.Str? && c.Str? {
      TextLessTotal(a.s, b.s);
      if TextLess(c.s, a.s) && TextLess(a.s, b.s) {
        TextLessTransitive(c.s, a.s, b.s);
      }
    }
  }

  /** Whatever comes strictly first is not after. */
  lemma KeyLessAsymmetric(a: Key, b: Key)
    requires KeyLess(a, b)
    ensures !KeyLess(b, a)
  {
    if a.Str? && b.Str? && TextLess(b.s, a.s) {
      TextLessTransitive(a.s, b.s, a.s);
      TextLessIrreflexive(a.s);
    }
  }

  /** The order `sort(by: areInIncreasingOrder)` produces: no element is
      strictly before an element to its left. */
  ghost predicate SortedBy<T>(s: seq<T>, key: T -> Key) {
    forall i, j :: 0 <= i < j < |s| ==> !KeyLess(key(s[j]), key(s[i]))
  }

  lemma SortedTail<T>(s: seq<T>, key: T -> Key)
    requires s != [] && SortedBy(s, key)
    ensures SortedBy(s[1..], key)
  {
    forall i, j | 0 <= i < j < |s| - 1
      ensures !KeyLess(key(s[1..][j]), key(s[1..][i]))
    {
      assert s[1..][j] == s[j + 1] && s[1..][i] == s[i + 1];
    }
  }

  lemma SortedCons<T>(x: T, rest: seq<T>, key: T -> Key)
    requires SortedBy(rest, key)
    requires forall k :: 0 <= k < |rest| ==> !KeyLess(key(rest[k]), key(x))
    ensures SortedBy([x] + rest, key)
  {
    var r := [x] + rest;
    forall i, j | 0 <= i < j < |r|
      ensures !KeyLess(key(r[j]), key(r[i]))
    {
      assert r[j] == rest[j - 1];
      if i > 0 {
        assert r[i] == rest[i - 1];
      }
    }
  }

  /** Filtering a sorted sequence leaves it sorted. */
  lemma {:induction false} FilterKeepsSorted<T(!new)>(s: seq<T>, p: T -> bool, key: T -> Key)
    requires SortedBy(s, key)
    ensures SortedBy(Filter(s, p), key)
  {
    if s != [] {
      SortedTail(s, key);
      FilterKeepsSorted(s[1..], p, key);
      var rest := Filter(s[1..], p);
      if p(s[0]) {
        forall k | 0 <= k < |rest|
          ensures !KeyLess(key(rest[k]), key(s[0]))
        {
          assert rest[k] in s[1..];
          var m :| 0 <= m < |s[1..]| && s[1..][m] == rest[k];
          assert s[m + 1] == rest[k];
        }
        SortedCons(s[0], rest, key);
      }
    }
  }

  /** Insertion sort in place: the array ends sorted by `key` and holds the
      same elements as before. */
  method SortInPlace<T>(a: array<T>, key: T -> Key)
    modifies a
    ensures SortedBy(a[..], key)
    ensures multiset(a[..]) == old(multiset(a[..]))
  {
    for i := 0 to a.Length
      invariant SortedBy(a[..i], key)
      invariant multiset(a[..]) == old(multiset(a[..]))
    {
      Insert(a, i, key);
    }
    assert a[..a.Length] == a[..];
  }

  /** One step of the insertion sort: `a[i]` moves left past every element
      whose key is strictly greater, so `a[..i + 1]` ends sorted. */
  method Insert<T>(a: array<T>, i: nat, key: T -> Key)
    requires i < a.Length && SortedBy(a[..i], key)
    modifies a
    ensures SortedBy(a[..i + 1], key)
    ensures multiset(a[..]) == old(multiset(a[..]))
  {
    var j := i;
    while j > 0 && KeyLess(key(a[j]), key(a[j - 1]))
      invariant 0 <= j <= i
      invariant forall p, q :: 0 <= p < q <= i && p != j && q != j ==> !KeyLess(key(a[q]), key(a[p]))
      invariant forall q :: j < q <= i ==> !KeyLess(key(a[q]), key(a[j]))
      invariant multiset(a[..]) == old(multiset(a[..]))
    {
      KeyLessAsymmetric(key(a[j]), key(a[j - 1]));
      a[j - 1], a[j] := a[j], a[j - 1];
      j := j - 1;
    }
    forall p | 0 <= p < j
      ensures !KeyLess(key(a[j]), key(a[p]))
    {
      if p < j - 1 {
        KeyNotAfterTransitive(key(a[p]), key(a[j - 1]), key(a[j]));
      }
    }
  }

  /** A sorted copy of `s`: the elements are put into a fresh array and sorted
      there, as a fetch request with a sort descriptor or `sort(by:)` on a
      copied array does. */
  method SortedCopy<T>(s: seq<T>, key: T -> Key) returns (r: seq<T>)
    ensures SortedBy(r, key)
    ensures multiset(r) == multiset(s)
  {
    var a := new T[|s|](i requires 0 <= i < |s| => s[i]);
    assert a[..] == s;
    SortInPlace(a, key);
    r := a[..];
  }
}
