/** Sorting, as the Go `sort` package is used: only the result is specified (an ordered
    permutation of the input), and the result is unique when the order is antisymmetric. */
module Sorting {

  ghost predicate TotalPreorder<T(!new)>(le: (T, T) -> bool) {
    && (forall x, y :: le(x, y) || le(y, x))
    && (forall x, y, z :: le(x, y) && le(y, z) ==> le(x, z))
  }

  ghost predicate Antisymmetric<T(!new)>(le: (T, T) -> bool) {
    forall x, y :: le(x, y) && le(y, x) ==> x == y
  }

  ghost predicate SortedBy<T(!new)>(s: seq<T>, le: (T, T) -> bool) {
    forall i, j :: 0 <= i < j < |s| ==> le(s[i], s[j])
  }

  function Insert<T(!new)>(x: T, s: seq<T>, le: (T, T) -> bool): (r: seq<T>)
    ensures multiset(r) == multiset(s) + multiset{x}
  {
    if s == [] then [x]
    else if le(x, s[0]) then [x] + s
    else
      assert s == [s[0]] + s[1..];
      [s[0]] + Insert(x, s[1..], le)
  }

  lemma {:induction false} InsertSorted<T(!new)>(x: T, s: seq<T>, le: (T, T) -> bool)
    requires TotalPreorder(le) && SortedBy(s, le)
    ensures SortedBy(Insert(x, s, le), le)
  {
    if s == [] {
    } else if le(x, s[0]) {
      var r := [x] + s;
      forall i, j | 0 <= i < j < |r| ensures le(r[i], r[j]) {
        if i == 0 && j > 1 { assert le(s[0], s[j - 1]); }
      }
    } else {
      var t := Insert(x, s[1..], le);
      InsertSorted(x, s[1..], le);
      var r := [s[0]] + t;
      assert Insert(x, s, le) == r;
      forall i, j | 0 <= i < j < |r| ensures le(r[i], r[j]) {
        if i == 0 {
          assert r[j] == t[j - 1] && t[j - 1] in multiset(t);
          if r[j] != x {
            assert r[j] in multiset(s[1..]);
            var k :| 0 <= k < |s[1..]| && s[1..][k] == r[j];
            assert le(s[0], s[k + 1]);
          }
        }
      }
    }
  }

  function Sort<T(!new)>(s: seq<T>, le: (T, T) -> bool): (r: seq<T>)
    requires TotalPreorder(le)
    ensures SortedBy(r, le) && multiset(r) == multiset(s)
  {
    if s == [] then []
    else
      assert s == [s[0]] + s[1..];
      var t := Sort(s[1..], le);
      InsertSorted(s[0], t, le);
      Insert(s[0], t, le)
  }

  lemma SamePermutation<T>(a: seq<T>, b: seq<T>)
    requires multiset(a) == multiset(b)
    ensures |a| == |b| && forall x :: x in a <==> x in b
  {
    assert |a| == |multiset(a)| && |b| == |multiset(b)|;
    assert forall x :: x in a <==> x in multiset(a);
    assert forall x :: x in b <==> x in multiset(b);
  }

  /** Two ordered permutations of the same elements are the same sequence. */
  lemma {:induction false} SortedUnique<T(!new)>(a: seq<T>, b: seq<T>, le: (T, T) -> bool)
    requires Antisymmetric(le) && TotalPreorder(le)
    requires SortedBy(a, le) && SortedBy(b, le) && multiset(a) == multiset(b)
    ensures a == b
  {
    SamePermutation(a, b);
    if a != [] {
      SameHead(a, b, le);
      hide Antisymmetric, TotalPreorder;
      SameTail(a, b);
      assert SortedBy(a[1..], le) && SortedBy(b[1..], le);
      hide SortedBy;
      SortedUnique(a[1..], b[1..], le);
      assert a == [a[0]] + a[1..] && b == [b[0]] + b[1..];
    }
  }

  lemma SameTail<T>(a: seq<T>, b: seq<T>)
    requires a != [] && b != [] && a[0] == b[0] && multiset(a) == multiset(b)
    ensures multiset(a[1..]) == multiset(b[1..])
  {
    assert a == [a[0]] + a[1..] && b == [b[0]] + b[1..];
    assert multiset(a[1..]) == multiset(a) - multiset{a[0]};
    assert multiset(b[1..]) == multiset(b) - multiset{b[0]};
  }

  lemma SameHead<T(!new)>(a: seq<T>, b: seq<T>, le: (T, T) -> bool)
    requires Antisymmetric(le) && TotalPreorder(le) && SortedBy(a, le) && SortedBy(b, le)
    requires a != [] && b != [] && a[0] in b && b[0] in a
    ensures a[0] == b[0]
  {
    var i :| 0 <= i < |a| && a[i] == b[0];
    var j :| 0 <= j < |b| && b[j] == a[0];
    assert i == 0 || le(a[0], a[i]);
    assert j == 0 || le(b[0], b[j]);
  }

  /** The elements of a set in whatever order a Go map range yields them. */
  method Enumerate<T(==)>(s: set<T>) returns (r: seq<T>)
    ensures multiset(r) == multiset(s) && |r| == |s|
    ensures forall x :: x in r <==> x in s
  {
    r := [];
    var rest := s;
    while rest != {}
      invariant rest <= s
      invariant multiset(r) == multiset(s - rest) && |r| == |s - rest|
      decreases rest
    {
      var x :| x in rest;
      ghost var taken := s - rest;
      assert s - (rest - {x}) == taken + {x};
      assert multiset(taken + {x}) == multiset(taken) + multiset{x};
      r, rest := r + [x], rest - {x};
    }
    assert s - rest == s;
    assert forall x :: x in r <==> x in multiset(r);
  }

  /** An enumeration of a set names nothing twice. */
  lemma NoRepeat<T>(order: seq<T>, s: set<T>, i: nat)
    requires multiset(order) == multiset(s) && i < |order|
    ensures order[i] !in order[..i]
  {
    assert order == order[..i] + [order[i]] + order[i + 1..];
    assert multiset(order)[order[i]] >= multiset(order[..i])[order[i]] + 1;
    assert multiset(s)[order[i]] <= 1;
  }

  predicate IntLe(a: int, b: int) { a <= b }

  /** Dictionary order. */
  predicate LexLe(a: seq<int>, b: seq<int>) {
    a == [] || (b != [] && (a[0] < b[0] || (a[0] == b[0] && LexLe(a[1..], b[1..]))))
  }

  lemma {:induction false} LexReflexive(a: seq<int>)
    ensures LexLe(a, a)
  {
    if a != [] { LexReflexive(a[1..]); }
  }

  lemma {:induction false} LexTransitive(a: seq<int>, b: seq<int>, c: seq<int>)
    requires LexLe(a, b) && LexLe(b, c)
    ensures LexLe(a, c)
  {
    if a != [] && a[0] == b[0] && b[0] == c[0] { LexTransitive(a[1..], b[1..], c[1..]); }
  }

  lemma {:induction false} LexAntisymmetric(a: seq<int>, b: seq<int>)
    requires LexLe(a, b) && LexLe(b, a)
    ensures a == b
  {
    if a != [] {
      LexAntisymmetric(a[1..], b[1..]);
      assert a == [a[0]] + a[1..] && b == [b[0]] + b[1..];
    }
  }

  lemma {:induction false} LexTotal(a: seq<int>, b: seq<int>)
    ensures LexLe(a, b) || LexLe(b, a)
  {
    if a != [] && b != [] && a[0] == b[0] { LexTotal(a[1..], b[1..]); }
  }
}
