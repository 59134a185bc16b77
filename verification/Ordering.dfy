/**
  Total orders, sorting and the first k elements of a finite set.

  The orchestrator sorts node ids in three ways: by name, by hash, and (seen as one
  order) by hash with the retained members in front.  All proofs about the result
  of a sort go through `StrictlySortedUnique`: a strictly sorted sequence is
  determined by its set of elements, so no result depends on the sorting algorithm.
 */
module Ordering {

  // ----- orders -----

  ghost predicate TotalPreorder<T(!new)>(le: (T, T) -> bool) {
    && (forall a, b :: le(a, b) || le(b, a))
    && (forall a, b, c :: le(a, b) && le(b, c) ==> le(a, c))
  }

  ghost predicate TotalOrder<T(!new)>(le: (T, T) -> bool) {
    && TotalPreorder(le)
    && (forall a, b :: le(a, b) && le(b, a) ==> a == b)
  }

  /** Lexicographic order, as Go compares strings. */
  predicate StringLe(a: string, b: string) {
    a == [] || (b != [] && (a[0] < b[0] || (a[0] == b[0] && StringLe(a[1..], b[1..]))))
  }

  lemma {:induction false} StringLeTotal(a: string, b: string)
    ensures StringLe(a, b) || StringLe(b, a)
  {
    if a != [] && b != [] {
      StringLeTotal(a[1..], b[1..]);
    }
  }

  lemma {:induction false} StringLeAntisymmetric(a: string, b: string)
    requires StringLe(a, b) && StringLe(b, a)
    ensures a == b
  {
    if a != [] && b != [] {
      StringLeAntisymmetric(a[1..], b[1..]);
      assert a == [a[0]] + a[1..] && b == [b[0]] + b[1..];
    }
  }

  lemma {:induction false} StringLeTransitive(a: string, b: string, c: string)
    requires StringLe(a, b) && StringLe(b, c)
    ensures StringLe(a, c)
  {
    if a != [] && a[0] == b[0] == c[0] {
      StringLeTransitive(a[1..], b[1..], c[1..]);
    }
  }

  /** b starts with a, or a has the smaller character where they first differ. */
  ghost predicate Precedes(a: string, b: string) {
    a <= b || exists k :: 0 <= k < |a| && k < |b| && a[..k] == b[..k] && a[k] < b[k]
  }

  lemma PrecedesTail(a: string, b: string)
    requires a != [] && b != [] && a[0] == b[0]
    ensures Precedes(a, b) <==> Precedes(a[1..], b[1..])
  {
    assert a == [a[0]] + a[1..] && b == [b[0]] + b[1..];
    if k :| 0 <= k < |a| && k < |b| && a[..k] == b[..k] && a[k] < b[k] {
      assert a[1..][..k - 1] == a[..k][1..] && b[1..][..k - 1] == b[..k][1..];
      assert a[1..][k - 1] < b[1..][k - 1];
    }
    if k :| 0 <= k < |a[1..]| && k < |b[1..]| && a[1..][..k] == b[1..][..k] && a[1..][k] < b[1..][k] {
      assert a[..k + 1] == [a[0]] + a[1..][..k] && b[..k + 1] == [b[0]] + b[1..][..k];
      assert a[k + 1] < b[k + 1];
    }
  }

  lemma {:induction false} StringLeIff(a: string, b: string)
    ensures StringLe(a, b) <==> Precedes(a, b)
  {
    if a != [] && b != [] {
      if a[0] == b[0] {
        StringLeIff(a[1..], b[1..]);
        PrecedesTail(a, b);
      } else if a[0] < b[0] {
        assert a[..0] == b[..0];
      }
    }
  }

  lemma StringOrder()
    ensures TotalOrder(StringLe)
  {
    forall a, b ensures StringLe(a, b) || StringLe(b, a) { StringLeTotal(a, b); }
    forall a, b | StringLe(a, b) && StringLe(b, a) ensures a == b { StringLeAntisymmetric(a, b); }
    forall a, b, c | StringLe(a, b) && StringLe(b, c) ensures StringLe(a, c) { StringLeTransitive(a, b, c); }
  }

  // ----- sequences and their element sets -----

  ghost function Elems<T>(s: seq<T>): set<T> {
    set x | x in s
  }

  ghost predicate NoRepeats<T>(s: seq<T>) {
    forall i, j :: 0 <= i < j < |s| ==> s[i] != s[j]
  }

  lemma {:induction false} NoRepeatsCardinality<T>(s: seq<T>)
    requires NoRepeats(s)
    ensures |Elems(s)| == |s|
  {
    if s != [] {
      NoRepeatsCardinality(s[1..]);
      assert Elems(s) == {s[0]} + Elems(s[1..]);
    }
  }

  lemma SubsetSize<T>(a: set<T>, b: set<T>)
    requires a <= b
    ensures |a| <= |b|
  {
    assert b == a + (b - a);
  }

  /** Inclusion decided by counting. */
  lemma CountsFull<T>(a: set<T>, b: set<T>)
    ensures |a * b| >= |a| <==> a <= b
    ensures |a| == 0 <==> a == {}
  {
    assert a == a * b + (a - b);
    assert |a| == |a * b| + |a - b|;
    assert a <= b <==> a - b == {};
  }

  ghost predicate Sorted<T>(s: seq<T>, le: (T, T) -> bool) {
    forall i, j :: 0 <= i < j < |s| ==> le(s[i], s[j])
  }

  ghost predicate StrictlySorted<T>(s: seq<T>, le: (T, T) -> bool) {
    Sorted(s, le) && NoRepeats(s)
  }

  /** A strictly sorted sequence is determined by its elements. */
  lemma {:induction false} StrictlySortedUnique<T(!new)>(s: seq<T>, t: seq<T>, le: (T, T) -> bool)
    requires TotalOrder(le)
    requires StrictlySorted(s, le) && StrictlySorted(t, le)
    requires Elems(s) == Elems(t)
    ensures s == t
  {
    NoRepeatsCardinality(s);
    NoRepeatsCardinality(t);
    if s != [] {
      assert s[0] in Elems(t) && t[0] in Elems(s);
      assert le(s[0], t[0]) && le(t[0], s[0]);
      assert Elems(s[1..]) == Elems(s) - {s[0]};
      assert Elems(t[1..]) == Elems(t) - {t[0]};
      StrictlySortedUnique(s[1..], t[1..], le);
      assert s == [s[0]] + s[1..] && t == [t[0]] + t[1..];
    }
  }

  // ----- sorting -----

  function Insert<T>(x: T, s: seq<T>, le: (T, T) -> bool): (r: seq<T>)
    ensures |r| == |s| + 1
  {
    if s == [] || le(x, s[0]) then [x] + s else [s[0]] + Insert(x, s[1..], le)
  }

  /** Insertion sort; stands for the library sorts. */
  function SortBy<T>(s: seq<T>, le: (T, T) -> bool): (r: seq<T>)
    ensures |r| == |s|
  {
    if s == [] then [] else Insert(s[0], SortBy(s[1..], le), le)
  }

  lemma {:induction false} InsertPermutes<T>(x: T, s: seq<T>, le: (T, T) -> bool)
    ensures multiset(Insert(x, s, le)) == multiset(s) + multiset{x}
  {
    if s != [] && !le(x, s[0]) {
      InsertPermutes(x, s[1..], le);
      assert s == [s[0]] + s[1..];
    }
  }

  lemma {:induction false} InsertSorts<T(!new)>(x: T, s: seq<T>, le: (T, T) -> bool)
    requires TotalPreorder(le) && Sorted(s, le)
    ensures Sorted(Insert(x, s, le), le)
  {
    if s != [] {
      if le(x, s[0]) {
        assert forall j :: 0 < j < |s| ==> le(s[0], s[j]);
      } else {
        InsertSorts(x, s[1..], le);
        var rest := Insert(x, s[1..], le);
        InsertPermutes(x, s[1..], le);
        forall j | 0 <= j < |rest| ensures le(s[0], rest[j]) {
          assert rest[j] in multiset(rest);
          assert rest[j] == x || rest[j] in s[1..];
        }
      }
    }
  }

  /** `SortBy` returns a sorted permutation. */
  lemma {:induction false} SortByCorrect<T(!new)>(s: seq<T>, le: (T, T) -> bool)
    requires TotalPreorder(le)
    ensures Sorted(SortBy(s, le), le)
    ensures multiset(SortBy(s, le)) == multiset(s)
  {
    if s != [] {
      SortByCorrect(s[1..], le);
      InsertSorts(s[0], SortBy(s[1..], le), le);
      InsertPermutes(s[0], SortBy(s[1..], le), le);
      assert s == [s[0]] + s[1..];
    }
  }

  lemma {:induction false} NoRepeatsByCount<T>(s: seq<T>)
    ensures NoRepeats(s) <==> forall x :: multiset(s)[x] <= 1
  {
    if s != [] {
      NoRepeatsByCount(s[1..]);
      assert s == [s[0]] + s[1..];
      assert multiset(s) == multiset{s[0]} + multiset(s[1..]);
      assert forall x :: multiset(s)[x] == multiset(s[1..])[x] + if x == s[0] then 1 else 0;
      assert s[0] in s[1..] <==> multiset(s[1..])[s[0]] >= 1;
      assert NoRepeats(s) <==> s[0] !in s[1..] && NoRepeats(s[1..]) by {
        if s[0] in s[1..] {
          var j :| 0 <= j < |s[1..]| && s[1..][j] == s[0];
          assert s[j + 1] == s[0];
        }
        if !NoRepeats(s[1..]) {
          var i, j :| 0 <= i < j < |s[1..]| && s[1..][i] == s[1..][j];
          assert s[i + 1] == s[j + 1];
        }
      }
    }
  }

  /** On sequences without repeats the sorted form is strictly sorted, with the same elements. */
  lemma SortByStrict<T(!new)>(s: seq<T>, le: (T, T) -> bool)
    requires TotalOrder(le) && NoRepeats(s)
    ensures StrictlySorted(SortBy(s, le), le)
    ensures Elems(SortBy(s, le)) == Elems(s)
  {
    var r := SortBy(s, le);
    SortByCorrect(s, le);
    NoRepeatsByCount(s);
    NoRepeatsByCount(r);
    assert forall x :: x in r <==> x in multiset(r);
  }

  // ----- the first k elements of a set -----

  /** `c` holds the `k` elements of `p` that come first in the order. */
  ghost predicate IsTop<T>(c: set<T>, p: set<T>, k: int, le: (T, T) -> bool) {
    c <= p && |c| == k && forall x, y :: x in c && y in p && y !in c ==> le(x, y)
  }

  lemma SubsetSameSize<T>(a: set<T>, b: set<T>)
    requires a <= b && |a| == |b|
    ensures a == b
  {
    assert b == a + (b - a);
  }

  lemma SameSizeDiffer<T>(a: set<T>, b: set<T>)
    requires |a| == |b| && a != b
    ensures exists x :: x in a && x !in b
  {
    if a <= b {
      SubsetSameSize(a, b);
    }
  }

  lemma TopUnique<T(!new)>(c: set<T>, d: set<T>, p: set<T>, k: int, le: (T, T) -> bool)
    requires TotalOrder(le) && IsTop(c, p, k, le) && IsTop(d, p, k, le)
    ensures c == d
  {
    if c != d {
      SameSizeDiffer(c, d);
      SameSizeDiffer(d, c);
      var x :| x in c && x !in d;
      var y :| y in d && y !in c;
      assert false;
    }
  }

  /** Taking the first k of a strictly sorted sequence gives the top k of its elements. */
  lemma PrefixIsTop<T(!new)>(s: seq<T>, k: nat, le: (T, T) -> bool)
    requires StrictlySorted(s, le) && k <= |s|
    ensures IsTop(Elems(s[..k]), Elems(s), k, le)
  {
    NoRepeatsCardinality(s[..k]);
    forall x, y | x in s[..k] && y in s && y !in s[..k] ensures le(x, y) {
      var i :| 0 <= i < k && s[i] == x;
      var j :| 0 <= j < |s| && s[j] == y;
      assert s[j] in s[..k] <==> y in s[..k];
      assert forall l :: 0 <= l < k ==> s[l] in s[..k];
    }
  }

  /**
    Stability of the top k under growth of the pool: a member chosen from the larger
    pool and present in the smaller one is chosen from the smaller one too.
   */
  lemma TopStable<T(!new)>(c: set<T>, d: set<T>, p: set<T>, q: set<T>, k: int, le: (T, T) -> bool)
    requires TotalOrder(le) && p <= q
    requires IsTop(c, p, k, le) && IsTop(d, q, k, le)
    ensures d * p <= c
  {
    forall x | x in d && x in p ensures x in c {
      if x !in c {
        assert c <= d;
        SubsetSameSize(c, d);
      }
    }
  }
}
