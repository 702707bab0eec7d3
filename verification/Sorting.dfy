/** Go's `sort.SliceStable` and `sort.Search`, as the model uses them. */
module Sorting {
  ghost predicate WeakOrder<T(!new)>(less: (T, T) -> bool) {
    && (forall a, b :: less(a, b) ==> !less(b, a))
    && (forall a, b, c :: !less(a, b) && !less(b, c) ==> !less(a, c))
  }

  ghost predicate Sorted<T>(less: (T, T) -> bool, s: seq<T>) {
    forall i, j :: 0 <= i < j < |s| ==> !less(s[j], s[i])
  }

  function Insert<T>(less: (T, T) -> bool, x: T, s: seq<T>): (r: seq<T>)
    ensures multiset(r) == multiset(s) + multiset{x}
    ensures |r| == |s| + 1
  {
    if s == [] then [x]
    else if less(s[0], x) then
      assert s == [s[0]] + s[1..];
      [s[0]] + Insert(less, x, s[1..])
    else [x] + s
  }

  /** A stable sort: elements that compare equal keep their order. */
  function StableSort<T>(less: (T, T) -> bool, s: seq<T>): (r: seq<T>)
    ensures multiset(r) == multiset(s)
    ensures |r| == |s|
  {
    if s == [] then []
    else
      assert s == [s[0]] + s[1..];
      Insert(less, s[0], StableSort(less, s[1..]))
  }

  lemma {:induction false} InsertSorted<T(!new)>(less: (T, T) -> bool, x: T, s: seq<T>)
    requires WeakOrder(less) && Sorted(less, s)
    ensures Sorted(less, Insert(less, x, s))
  {
    var r := Insert(less, x, s);
    if s != [] && less(s[0], x) {
      var t := Insert(less, x, s[1..]);
      InsertSorted(less, x, s[1..]);
      forall j | 0 < j < |r| ensures !less(r[j], r[0]) {
        assert t[j - 1] in multiset(t);
        assert t[j - 1] == x || t[j - 1] in s[1..];
      }
    } else if s != [] {
      forall j | 0 < j < |r| ensures !less(r[j], r[0]) {
        assert !less(r[j], s[0]) && !less(s[0], x);
      }
    }
  }

  lemma {:induction false} SortSorted<T(!new)>(less: (T, T) -> bool, s: seq<T>)
    requires WeakOrder(less)
    ensures Sorted(less, StableSort(less, s))
  {
    if s != [] {
      SortSorted(less, s[1..]);
      InsertSorted(less, s[0], StableSort(less, s[1..]));
    }
  }

  /** Sorting a sorted sequence changes nothing. */
  lemma {:induction false} SortIdentity<T>(less: (T, T) -> bool, s: seq<T>)
    requires Sorted(less, s)
    ensures StableSort(less, s) == s
  {
    if s != [] {
      SortIdentity(less, s[1..]);
    }
  }

  /** Two sorted arrangements of the same elements agree, when ties are between equal elements. */
  lemma {:induction false} SortedUnique<T(!new)>(less: (T, T) -> bool, a: seq<T>, b: seq<T>)
    requires multiset(a) == multiset(b)
    requires Sorted(less, a) && Sorted(less, b)
    requires forall x, y :: x in a && y in a && !less(x, y) && !less(y, x) ==> x == y
    ensures a == b
  {
    assert |a| == |multiset(a)| == |multiset(b)| == |b|;
    if a != [] {
      FirstAgrees(less, a, b);
      TailMultiset(a, b);
      SortedUnique(less, a[1..], b[1..]);
      assert a == [a[0]] + a[1..] && b == [b[0]] + b[1..];
    }
  }

  lemma FirstAgrees<T(!new)>(less: (T, T) -> bool, a: seq<T>, b: seq<T>)
    requires a != [] && b != [] && multiset(a) == multiset(b)
    requires Sorted(less, a) && Sorted(less, b)
    requires forall x, y :: x in a && y in a && !less(x, y) && !less(y, x) ==> x == y
    ensures a[0] == b[0]
  {
    SameElements(a, b, a[0]);
    SameElements(a, b, b[0]);
    var k :| 0 <= k < |a| && a[k] == b[0];
    var l :| 0 <= l < |b| && b[l] == a[0];
    if k > 0 && l > 0 {
      assert !less(a[k], a[0]) && !less(b[l], b[0]);
    }
  }

  lemma TailMultiset<T>(a: seq<T>, b: seq<T>)
    requires a != [] && b != [] && multiset(a) == multiset(b) && a[0] == b[0]
    ensures multiset(a[1..]) == multiset(b[1..])
  {
    assert a == [a[0]] + a[1..] && b == [b[0]] + b[1..];
    assert multiset(a[1..]) == multiset(a) - multiset{a[0]};
    assert multiset(b[1..]) == multiset(b) - multiset{b[0]};
  }

  lemma SameElements<T>(a: seq<T>, b: seq<T>, x: T)
    requires multiset(a) == multiset(b)
    ensures x in a <==> x in b
  {
    assert x in a <==> x in multiset(a);
    assert x in b <==> x in multiset(b);
  }

  lemma TwiceCounts<T>(s: seq<T>, i: nat, j: nat)
    requires i < j < |s| && s[i] == s[j]
    ensures multiset(s)[s[i]] >= 2
  {
    assert s == s[..j] + s[j..];
    assert s[..j][i] in multiset(s[..j]) && s[j..][0] in multiset(s[j..]);
  }

  /** Elements of a list without repetition count at most once. */
  lemma {:induction false} OnceCounts<T>(s: seq<T>, x: T)
    requires forall k, l :: 0 <= k < l < |s| ==> s[k] != s[l]
    ensures multiset(s)[x] == if x in s then 1 else 0
  {
    if s != [] {
      var n := |s| - 1;
      assert s == s[..n] + [s[n]];
      OnceCounts(s[..n], x);
    }
  }

  /** The sum of `g` over a list. */
  function SumOver<T>(s: seq<T>, g: T -> nat): nat {
    if s == [] then 0 else SumOver(s[..|s| - 1], g) + g(s[|s| - 1])
  }

  lemma SumSnoc<T>(s: seq<T>, x: T, g: T -> nat)
    ensures SumOver(s + [x], g) == SumOver(s, g) + g(x)
  {
    assert (s + [x])[..|s|] == s;
  }

  lemma SumTo<T>(s: seq<T>, k: nat, g: T -> nat)
    requires k < |s|
    ensures SumOver(s[..k + 1], g) == SumOver(s[..k], g) + g(s[k])
  {
    SumSnoc(s[..k], s[k], g);
    assert s[..k + 1] == s[..k] + [s[k]];
  }

  lemma {:induction false} SumConcat<T>(a: seq<T>, b: seq<T>, g: T -> nat)
    ensures SumOver(a + b, g) == SumOver(a, g) + SumOver(b, g)
  {
    if b == [] {
      assert a + b == a;
    } else {
      var n := |b| - 1;
      SumConcat(a, b[..n], g);
      SumSnoc(a + b[..n], b[n], g);
      assert a + b == a + b[..n] + [b[n]];
    }
  }

  lemma SumInsert<T>(l: seq<T>, x: T, r: seq<T>, g: T -> nat)
    ensures SumOver(l + [x] + r, g) == SumOver(l + r, g) + g(x)
  {
    SumSnoc(l, x, g);
    SumConcat(l + [x], r, g);
    SumConcat(l, r, g);
  }

  /** A list without its element `k`. */
  function Without<T>(s: seq<T>, k: nat): (r: seq<T>)
    requires k < |s|
    ensures |r| == |s| - 1
  {
    s[..k] + s[k + 1..]
  }

  lemma SumWithout<T>(s: seq<T>, k: nat, g: T -> nat)
    requires k < |s|
    ensures SumOver(s, g) == SumOver(Without(s, k), g) + g(s[k])
  {
    SumParts(s, s[..k], s[k], s[k + 1..], g);
  }

  lemma SumParts<T>(s: seq<T>, l: seq<T>, x: T, r: seq<T>, g: T -> nat)
    requires |s| == |l| + 1 + |r| && s[..|l|] == l && s[|l|] == x && s[|l| + 1..] == r
    ensures SumOver(s, g) == SumOver(l + r, g) + g(x)
  {
    SumInsert(l, x, r, g);
    assert s == l + [x] + r;
  }

  lemma WithoutCounts<T>(s: seq<T>, k: nat)
    requires k < |s|
    ensures multiset(Without(s, k)) == multiset(s) - multiset{s[k]}
  {
    assert s == s[..k] + [s[k]] + s[k + 1..];
  }

  /** The sum does not depend on the order. */
  lemma {:induction false} SumPermuted<T>(a: seq<T>, b: seq<T>, g: T -> nat)
    requires multiset(a) == multiset(b)
    ensures SumOver(a, g) == SumOver(b, g)
    decreases |a|
  {
    assert |a| == |multiset(a)| && |b| == |multiset(b)|;
    if a != [] {
      SameElements(a, b, a[0]);
      var k :| 0 <= k < |b| && b[k] == a[0];
      WithoutCounts(a, 0);
      WithoutCounts(b, k);
      SumWithout(a, 0, g);
      SumWithout(b, k, g);
      SumPermuted(Without(a, 0), Without(b, k), g);
    }
  }

  /** How many of the first `n` numbers have a property. */
  function CountTo(n: nat, p: nat -> bool): (r: nat)
    ensures r <= n
  {
    if n == 0 then 0 else CountTo(n - 1, p) + if p(n - 1) then 1 else 0
  }

  function ByKey<T>(key: T -> int): (r: (T, T) -> bool) {
    (a, b) => key(a) < key(b)
  }

  /** Sorting by an integer key, with the properties every use needs. */
  function SortBy<T(!new)>(key: T -> int, s: seq<T>): (r: seq<T>)
    ensures multiset(r) == multiset(s)
    ensures |r| == |s|
    ensures forall i, j :: 0 <= i < j < |r| ==> key(r[i]) <= key(r[j])
  {
    SortSorted(ByKey(key), s);
    StableSort(ByKey(key), s)
  }

  /** The elements with key `x`, in order. */
  function Same<T>(key: T -> int, x: int, s: seq<T>): (r: seq<T>)
    ensures forall y :: y in r ==> key(y) == x && y in s
  {
    if s == [] then [] else if key(s[0]) == x then [s[0]] + Same(key, x, s[1..]) else Same(key, x, s[1..])
  }

  lemma {:induction false} InsertSame<T(!new)>(key: T -> int, x: int, y: T, s: seq<T>)
    requires forall i, j :: 0 <= i < j < |s| ==> key(s[i]) <= key(s[j])
    ensures Same(key, x, Insert(ByKey(key), y, s)) == Same(key, x, [y] + s)
  {
    assert ([y] + s)[1..] == s;
    if s != [] && key(s[0]) < key(y) {
      var t := Insert(ByKey(key), y, s[1..]);
      InsertSame(key, x, y, s[1..]);
      assert ([y] + s[1..])[1..] == s[1..] && ([s[0]] + t)[1..] == t;
    }
  }

  /** Sorting is stable: elements with the same key keep their order. */
  lemma {:induction false} SortStable<T(!new)>(key: T -> int, x: int, s: seq<T>)
    ensures Same(key, x, SortBy(key, s)) == Same(key, x, s)
  {
    if s != [] {
      SortStable(key, x, s[1..]);
      InsertSame(key, x, s[0], SortBy(key, s[1..]));
      assert ([s[0]] + SortBy(key, s[1..]))[1..] == SortBy(key, s[1..]);
    }
  }

  /** The first element with key `x`. */
  lemma {:induction false} FirstSame<T>(key: T -> int, x: int, s: seq<T>, k: nat)
    requires k < |s| && key(s[k]) == x && forall i :: 0 <= i < k ==> key(s[i]) != x
    ensures Same(key, x, s) != [] && Same(key, x, s)[0] == s[k]
  {
    if k > 0 { FirstSame(key, x, s[1..], k - 1); }
  }

  lemma {:induction false} SameFirst<T>(key: T -> int, x: int, s: seq<T>) returns (k: nat)
    requires Same(key, x, s) != []
    ensures k < |s| && s[k] == Same(key, x, s)[0] && forall i :: 0 <= i < k ==> key(s[i]) != x
  {
    if key(s[0]) == x {
      k := 0;
    } else {
      k := SameFirst(key, x, s[1..]);
      assert forall i :: 0 < i < k + 1 ==> s[i] == s[1..][i - 1];
      k := k + 1;
    }
  }

  /** `sort.Search`: binary search for the least index at which a monotone `f` holds. */
  method Search(n: nat, f: nat -> bool) returns (i: nat)
    ensures i <= n
    ensures i < n ==> f(i)
    ensures i > 0 ==> !f(i - 1)
  {
    var j := n;
    i := 0;
    while i < j
      invariant 0 <= i <= j <= n
      invariant i > 0 ==> !f(i - 1)
      invariant j < n ==> f(j)
    {
      var h := (i + j) / 2;
      if !f(h) {
        i := h + 1;
      } else {
        j := h;
      }
    }
  }
}
