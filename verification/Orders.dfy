/** Strict total orders, the one way to sort a finite set by one, and counting positions. */
module Orders {

  ghost predicate StrictTotal<T(!new)>(less: (T, T) -> bool)
  {
    && (forall x :: !less(x, x))
    && (forall x, y, z :: less(x, y) && less(y, z) ==> less(x, z))
    && (forall x, y :: x == y || less(x, y) || less(y, x))
  }

  ghost predicate Sorted<T>(s: seq<T>, less: (T, T) -> bool)
  {
    forall i, j | 0 <= i < j < |s| :: less(s[i], s[j])
  }

  ghost predicate Ascending(s: seq<int>)
  {
    forall i, j | 0 <= i < j < |s| :: s[i] < s[j]
  }

  function Elements<T>(s: seq<T>): set<T>
  {
    set x <- s
  }

  ghost predicate IsLeast<T>(m: T, s: set<T>, less: (T, T) -> bool)
  {
    m in s && forall x <- s :: x == m || less(m, x)
  }

  lemma {:induction false} LeastExists<T(!new)>(s: set<T>, less: (T, T) -> bool) returns (m: T)
    requires s != {} && StrictTotal(less)
    ensures IsLeast(m, s, less)
    decreases |s|
  {
    var x :| x in s;
    if s == {x} {
      m := x;
    } else {
      var r := LeastExists(s - {x}, less);
      assert x != r;
      m := if less(x, r) then x else r;
      forall y | y in s
        ensures y == m || less(m, y)
      {
        assert y == x || y in s - {x};
      }
    }
  }

  /** The elements of s in order. */
  ghost function Sort<T(!new)>(s: set<T>, less: (T, T) -> bool): (r: seq<T>)
    requires StrictTotal(less)
    ensures Elements(r) == s
    ensures Sorted(r, less)
    ensures |r| == |s|
    decreases |s|
  {
    if s == {} then []
    else
      var m := LeastOf(s, less);
      var rest := Sort(s - {m}, less);
      ConsSorted(m, rest, s, less);
      [m] + rest
  }

  ghost function LeastOf<T(!new)>(s: set<T>, less: (T, T) -> bool): (m: T)
    requires s != {} && StrictTotal(less)
    ensures IsLeast(m, s, less)
  {
    assert exists m :: IsLeast(m, s, less) by {
      var m := LeastExists(s, less);
    }
    var m :| IsLeast(m, s, less);
    m
  }

  lemma ConsSorted<T(!new)>(m: T, rest: seq<T>, s: set<T>, less: (T, T) -> bool)
    requires IsLeast(m, s, less) && Elements(rest) == s - {m} && Sorted(rest, less)
    ensures Sorted([m] + rest, less) && Elements([m] + rest) == s
  {
    var r := [m] + rest;
    forall i | 0 <= i < |rest|
      ensures less(m, rest[i])
    {
      assert rest[i] in Elements(rest);
    }
    forall x | x in s
      ensures x in r
    {
      if x != m {
        assert x in Elements(rest);
      }
    }
    forall x | x in r
      ensures x in s
    {
      if x != m {
        assert x in Elements(rest);
      }
    }
  }

  /** Sorting leaves no choice: two sorted sequences with the same elements are equal. */
  lemma {:induction false} SortedUnique<T(!new)>(a: seq<T>, b: seq<T>, less: (T, T) -> bool)
    requires StrictTotal(less) && Sorted(a, less) && Sorted(b, less) && Elements(a) == Elements(b)
    ensures a == b
  {
    assert a != [] ==> a[0] in Elements(a);
    assert b != [] ==> b[0] in Elements(b);
    if a != [] {
      FirstIsLeast(a, less);
      FirstIsLeast(b, less);
      assert a[0] == b[0];
      TailElements(a, less);
      TailElements(b, less);
      SortedUnique(a[1..], b[1..], less);
      assert a == [a[0]] + a[1..] && b == [b[0]] + b[1..];
    }
  }

  lemma FirstIsLeast<T(!new)>(a: seq<T>, less: (T, T) -> bool)
    requires a != [] && Sorted(a, less)
    ensures IsLeast(a[0], Elements(a), less)
  {}

  lemma TailElements<T(!new)>(a: seq<T>, less: (T, T) -> bool)
    requires StrictTotal(less) && a != [] && Sorted(a, less)
    ensures Elements(a[1..]) == Elements(a) - {a[0]}
  {
    assert a == [a[0]] + a[1..];
    forall x | x in a[1..]
      ensures x != a[0]
    {
      var i :| 0 <= i < |a[1..]| && a[1..][i] == x;
      assert less(a[0], a[i + 1]);
    }
  }

  // ---------------------------------------------------------------- the orders of the queries

  predicate PairLess(a: (int, int), b: (int, int))
  {
    a.0 < b.0 || (a.0 == b.0 && a.1 < b.1)
  }

  lemma PairOrder()
    ensures StrictTotal(PairLess)
  {}

  // ---------------------------------------------------------------- pigeonhole

  /** The numbers 0..n-1. */
  function Below(n: nat): (r: set<int>)
    ensures forall k :: k in r <==> 0 <= k < n
    ensures |r| == n
  {
    if n == 0 then {} else Below(n - 1) + {n - 1}
  }

  lemma {:induction false} SubsetSize<T>(a: set<T>, b: set<T>)
    requires a <= b
    ensures |a| <= |b|
    ensures |a| == |b| ==> a == b
    decreases |a|
  {
    if a == {} {
      assert |b| == 0 <==> b == {};
    } else {
      var x :| x in a;
      SubsetSize(a - {x}, b - {x});
      assert a == (a - {x}) + {x} && b == (b - {x}) + {x};
    }
  }

  function Image<T, U>(s: set<T>, f: map<T, U>): set<U>
    requires s <= f.Keys
  {
    set x | x in s :: f[x]
  }

  ghost predicate Different<T, U>(s: set<T>, f: map<T, U>)
    requires s <= f.Keys
  {
    forall a, b | a in s && b in s && f[a] == f[b] :: a == b
  }

  /** Values that are all different are as many as what they are the values of. */
  lemma {:induction false} ImageSize<T, U>(s: set<T>, f: map<T, U>)
    requires s <= f.Keys && Different(s, f)
    ensures |Image(s, f)| == |s|
    decreases |s|
  {
    if x :| x in s {
      ImageSize(s - {x}, f);
      assert Image(s, f) == Image(s - {x}, f) + {f[x]};
    } else {
      assert s == {} && Image(s, f) == {};
    }
  }
}
