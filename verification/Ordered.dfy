/** Strict total orders and iteration of a set in order, as over `std::set` and `std::map`. */
module Ordered {

  ghost predicate TotalOrder<T(!new)>(less: (T, T) -> bool) {
    && (forall a, b :: a == b || less(a, b) || less(b, a))
    && (forall a :: !less(a, a))
    && (forall a, b, c :: less(a, b) && less(b, c) ==> less(a, c))
  }

  ghost predicate Ascending<T(!new)>(s: seq<T>, less: (T, T) -> bool) {
    forall i, j :: 0 <= i < j < |s| ==> less(s[i], s[j])
  }

  method Least<T(!new, ==)>(s: set<T>, less: (T, T) -> bool) returns (x: T)
    requires s != {} && TotalOrder(less)
    ensures x in s && forall y :: y in s ==> y == x || less(x, y)
  {
    x :| x in s;
    var rest := s - {x};
    while rest != {}
      invariant rest <= s && x in s
      invariant forall y :: y in s && y !in rest ==> y == x || less(x, y)
      decreases |rest|
    {
      var y :| y in rest;
      if less(y, x) {
        x := y;
      }
      rest := rest - {y};
    }
  }

  predicate NatLess(a: nat, b: nat) {
    a < b
  }

  /** The least of a set of numbers. */
  method LeastNat(s: set<nat>) returns (m: nat)
    requires s != {}
    ensures m in s && forall x :: x in s ==> m <= x
  {
    m := Least(s, NatLess);
  }

  /** All elements of a set, least first. */
  method InOrder<T(!new, ==)>(s: set<T>, less: (T, T) -> bool) returns (r: seq<T>)
    requires TotalOrder(less)
    ensures Ascending(r, less) && forall x :: x in r <==> x in s
  {
    r := [];
    var rest := s;
    while rest != {}
      invariant rest <= s && Ascending(r, less)
      invariant forall x :: x in r <==> x in s && x !in rest
      invariant forall x, y :: x in r && y in rest ==> less(x, y)
      decreases |rest|
    {
      var x := Least(rest, less);
      r := r + [x];
      rest := rest - {x};
    }
  }

  lemma FirstIsLeast(a: seq<nat>, x: nat)
    requires Ascending(a, NatLess) && x in a
    ensures a[0] <= x && (x in a[1..] <==> x != a[0])
  {
    assert forall k :: 0 <= k < |a[1..]| ==> NatLess(a[0], a[1..][k]);
    assert a == [a[0]] + a[1..];
  }

  /** There is one way to put the elements in ascending order. */
  lemma {:induction false} OneOrder(a: seq<nat>, b: seq<nat>)
    requires Ascending(a, NatLess) && Ascending(b, NatLess) && forall x :: x in a <==> x in b
    ensures a == b
    decreases |a|
  {
    assert a != [] ==> a[0] in b;
    assert b != [] ==> b[0] in a;
    if a != [] {
      FirstIsLeast(a, b[0]);
      FirstIsLeast(b, a[0]);
      forall x ensures x in a[1..] <==> x in b[1..] {
        if x in a {
          FirstIsLeast(a, x);
          FirstIsLeast(b, x);
        }
      }
      OneOrder(a[1..], b[1..]);
      assert a == [a[0]] + a[1..] && b == [b[0]] + b[1..];
    }
  }

  /** The two-pointer walk over two ascending sequences. */
  method NoneShared<T(!new, ==)>(a: seq<T>, b: seq<T>, less: (T, T) -> bool) returns (ok: bool)
    requires TotalOrder(less) && Ascending(a, less) && Ascending(b, less)
    ensures ok <==> forall x :: !(x in a && x in b)
  {
    var i, j := 0, 0;
    while i < |a| && j < |b|
      invariant 0 <= i <= |a| && 0 <= j <= |b|
      invariant forall x :: x in a && x in b ==> x in a[i..] && x in b[j..]
      decreases |a| + |b| - i - j
    {
      if less(a[i], b[j]) {
        i := i + 1;
      } else if less(b[j], a[i]) {
        j := j + 1;
      } else {
        assert a[i] in a && a[i] in b;
        return false;
      }
    }
    return true;
  }

  ghost predicate Split2<T(!new)>(all: set<T>, done: set<T>, todo: set<T>) {
    done + todo == all && done !! todo
  }

  lemma MoveOne<T(!new)>(all: set<T>, done: set<T>, todo: set<T>, x: T)
    requires Split2(all, done, todo) && x in todo
    ensures Split2(all, done + {x}, todo - {x}) && |todo - {x}| < |todo|
  {
  }

  lemma HeadTail<T>(s: seq<T>)
    requires s != []
    ensures s == [s[0]] + s[1..]
  {
  }

  lemma TakeDrop<T>(s: seq<T>, n: nat)
    requires n <= |s|
    ensures s == s[..n] + s[n..]
  {
  }

  lemma Associates<T>(a: seq<T>, b: seq<T>, c: seq<T>)
    ensures a + b + c == a + (b + c)
  {
  }

  lemma {:induction false} SubsetSize<T>(s: set<T>, t: set<T>)
    requires s <= t
    ensures |s| <= |t|
  {
    if s != {} {
      var x :| x in s;
      SubsetSize(s - {x}, t - {x});
    }
  }

  lemma {:induction false} BoundedSize(s: set<nat>, n: nat)
    requires forall i :: i in s ==> i < n
    ensures |s| <= n
    decreases n
  {
    if |s| > 0 {
      var x :| x in s;
      assert x < n;
      BoundedSize(s - {n - 1}, n - 1);
    }
  }
}
