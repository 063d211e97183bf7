/**
 * Python's `sorted(xs, key=k)` for keys that are tuples of integers or
 * strings, both written here as `seq<int>` and compared the way Python
 * compares sequences: element by element, a proper prefix first.
 * `sorted` is stable; `SortBy` is an insertion sort with the same result.
 */
module Sorting {

  /** Python's `<` on tuples of integers, and on strings as code points. */
  predicate LexLt(a: seq<int>, b: seq<int>) {
    if a == [] then b != []
    else if b == [] then false
    else if a[0] != b[0] then a[0] < b[0]
    else LexLt(a[1..], b[1..])
  }

  predicate LexLe(a: seq<int>, b: seq<int>) {
    a == b || LexLt(a, b)
  }

  lemma {:induction false} LexLtIrreflexive(a: seq<int>)
    ensures !LexLt(a, a)
  {
    if a != [] {
      LexLtIrreflexive(a[1..]);
    }
  }

  lemma {:induction false} LexLtTransitive(a: seq<int>, b: seq<int>, c: seq<int>)
    requires LexLt(a, b) && LexLt(b, c)
    ensures LexLt(a, c)
  {
    if a != [] && b != [] && c != [] && a[0] == b[0] && b[0] == c[0] {
      LexLtTransitive(a[1..], b[1..], c[1..]);
    }
  }

  lemma {:induction false} LexTotal(a: seq<int>, b: seq<int>)
    ensures a == b || LexLt(a, b) || LexLt(b, a)
  {
    if a != [] && b != [] && a[0] == b[0] {
      LexTotal(a[1..], b[1..]);
      if a[1..] == b[1..] {
        assert a == [a[0]] + a[1..] && b == [b[0]] + b[1..];
      }
    }
  }

  lemma LexLeTransitive(a: seq<int>, b: seq<int>, c: seq<int>)
    requires LexLe(a, b) && LexLe(b, c)
    ensures LexLe(a, c)
  {
    if a != b && b != c {
      LexLtTransitive(a, b, c);
    }
  }

  lemma LexLeAntisymmetric(a: seq<int>, b: seq<int>)
    requires LexLe(a, b) && LexLe(b, a)
    ensures a == b
  {
    if a != b {
      LexLtTransitive(a, b, a);
      LexLtIrreflexive(a);
    }
  }

  /** Keys that start with a tag compare by the tag first, then by the rest. */
  lemma LexLeHead(a: int, x: seq<int>, b: int, y: seq<int>)
    requires LexLe([a] + x, [b] + y)
    ensures a <= b
    ensures a == b ==> LexLe(x, y)
  {
    assert ([a] + x)[1..] == x && ([b] + y)[1..] == y;
  }

  /** Every key is in order with its successors. */
  ghost predicate SortedBy<T>(s: seq<T>, key: T -> seq<int>) {
    forall i, j :: 0 <= i < j < |s| ==> LexLe(key(s[i]), key(s[j]))
  }

  /** The elements of `s` whose key is `k`, in their order in `s`. */
  function WithKey<T>(s: seq<T>, key: T -> seq<int>, k: seq<int>): seq<T> {
    if s == [] then []
    else if key(s[0]) == k then [s[0]] + WithKey(s[1..], key, k)
    else WithKey(s[1..], key, k)
  }

  /** Puts `x` in front of the first element whose key is not below its own. */
  function Insert<T>(x: T, t: seq<T>, key: T -> seq<int>): (r: seq<T>)
    ensures |r| == |t| + 1
    ensures multiset(r) == multiset(t) + multiset{x}
  {
    if t == [] then [x]
    else if LexLt(key(t[0]), key(x)) then
      var r := [t[0]] + Insert(x, t[1..], key);
      assert t == [t[0]] + t[1..];
      r
    else [x] + t
  }

  /** Every element of `Insert(x, t)` is `x` or an element of `t`. */
  lemma InsertElements<T>(x: T, t: seq<T>, key: T -> seq<int>, j: nat)
    requires j < |t| + 1
    ensures Insert(x, t, key)[j] == x || Insert(x, t, key)[j] in t
  {
    var u := Insert(x, t, key);
    assert u[j] in multiset(u);
  }

  /** Putting `h` in front of a sorted list whose keys are all at least its own keeps it sorted. */
  lemma ConsSorted<T>(h: T, u: seq<T>, key: T -> seq<int>)
    requires SortedBy(u, key)
    requires forall j :: 0 <= j < |u| ==> LexLe(key(h), key(u[j]))
    ensures SortedBy([h] + u, key)
  {
    var r := [h] + u;
    forall i, j | 0 <= i < j < |r|
      ensures LexLe(key(r[i]), key(r[j]))
    {
      assert r[j] == u[j - 1];
      if i > 0 {
        assert r[i] == u[i - 1];
      }
    }
  }

  lemma {:induction false} InsertSorted<T>(x: T, t: seq<T>, key: T -> seq<int>)
    requires SortedBy(t, key)
    ensures SortedBy(Insert(x, t, key), key)
  {
    if t == [] {
    } else if LexLt(key(t[0]), key(x)) {
      var u := Insert(x, t[1..], key);
      assert SortedBy(t[1..], key) by {
        forall i, j | 0 <= i < j < |t[1..]| ensures LexLe(key(t[1..][i]), key(t[1..][j])) {
          assert t[1..][i] == t[i + 1] && t[1..][j] == t[j + 1];
        }
      }
      InsertSorted(x, t[1..], key);
      forall j | 0 <= j < |u|
        ensures LexLe(key(t[0]), key(u[j]))
      {
        InsertElements(x, t[1..], key, j);
        if u[j] != x {
          var m :| 0 <= m < |t[1..]| && t[1..][m] == u[j];
          assert t[m + 1] == u[j];
        }
      }
      ConsSorted(t[0], u, key);
    } else {
      LexTotal(key(t[0]), key(x));
      forall j | 0 <= j < |t|
        ensures LexLe(key(x), key(t[j]))
      {
        if j > 0 {
          LexLeTransitive(key(x), key(t[0]), key(t[j]));
        }
      }
      ConsSorted(x, t, key);
    }
  }

  /**
   * Python's `sorted(s, key=key)`: ordered by key and a permutation of `s`
   * (`SortStable` below adds that equal keys keep their order).
   */
  function SortBy<T>(s: seq<T>, key: T -> seq<int>): (r: seq<T>)
    ensures SortedBy(r, key)
    ensures multiset(r) == multiset(s)
  {
    if s == [] then []
    else
      var t := SortBy(s[1..], key);
      InsertSorted(s[0], t, key);
      assert s == [s[0]] + s[1..];
      Insert(s[0], t, key)
  }

  lemma {:induction false} InsertWithKey<T>(x: T, t: seq<T>, key: T -> seq<int>, k: seq<int>)
    ensures WithKey(Insert(x, t, key), key, k)
         == if key(x) == k then [x] + WithKey(t, key, k) else WithKey(t, key, k)
  {
    if t != [] && LexLt(key(t[0]), key(x)) {
      InsertWithKey(x, t[1..], key, k);
      LexLtIrreflexive(key(x));
      var r := Insert(x, t, key);
      assert r[1..] == Insert(x, t[1..], key);
    } else if t != [] {
      var r := [x] + t;
      assert r[1..] == t;
    }
  }

  /** Stability: among equal keys, `sorted` keeps the input order. */
  lemma {:induction false} SortStable<T>(s: seq<T>, key: T -> seq<int>, k: seq<int>)
    ensures WithKey(SortBy(s, key), key, k) == WithKey(s, key, k)
  {
    if s != [] {
      SortStable(s[1..], key, k);
      InsertWithKey(s[0], SortBy(s[1..], key), key, k);
    }
  }
}
