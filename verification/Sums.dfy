/** Sums over finite sets, and least elements of finite total orders. */
module Sums {

  ghost function Sum<T>(s: set<T>, f: T -> int): int {
    if s == {} then 0 else
      var x :| x in s;
      f(x) + Sum(s - {x}, f)
  }

  lemma {:induction false} SumSplitsOff<T>(s: set<T>, f: T -> int, x: T)
    requires x in s
    ensures Sum(s, f) == f(x) + Sum(s - {x}, f)
  {
    var y :| y in s && Sum(s, f) == f(y) + Sum(s - {y}, f);
    if y != x {
      SumSplitsOff(s - {y}, f, x);
      SumSplitsOff(s - {x}, f, y);
      assert s - {y} - {x} == s - {x} - {y};
    }
  }

  lemma {:induction false} SumOfUnion<T>(a: set<T>, b: set<T>, f: T -> int)
    requires a !! b
    ensures Sum(a + b, f) == Sum(a, f) + Sum(b, f)
  {
    if a == {} {
      assert a + b == b;
    } else {
      var x :| x in a;
      SumSplitsOff(a, f, x);
      SumSplitsOff(a + b, f, x);
      SumOfUnion(a - {x}, b, f);
      assert (a + b) - {x} == (a - {x}) + b;
    }
  }

  /** Summing over `a` is summing over the image of an injective map that keeps the terms. */
  lemma {:induction false} SumReindexed<A, B>(a: set<A>, b: set<B>, to: A -> B, f: A -> int, g: B -> int)
    requires forall x :: x in a ==> to(x) in b && f(x) == g(to(x))
    requires forall x, y :: x in a && y in a && to(x) == to(y) ==> x == y
    requires forall y :: y in b ==> exists x :: x in a && to(x) == y
    ensures Sum(a, f) == Sum(b, g)
  {
    if a == {} {
      assert forall y :: y !in b;
    } else {
      var x :| x in a;
      SumSplitsOff(a, f, x);
      SumSplitsOff(b, g, to(x));
      forall y | y in b - {to(x)} ensures exists z :: z in a - {x} && to(z) == y {
        var z :| z in a && to(z) == y;
        assert z in a - {x};
      }
      SumReindexed(a - {x}, b - {to(x)}, to, f, g);
    }
  }

  /** An injective image has as many members as its source. */
  lemma {:induction false} ImageSize<A, B>(a: set<A>, b: set<B>, to: A -> B)
    requires forall x :: x in a ==> to(x) in b
    requires forall x, y :: x in a && y in a && to(x) == to(y) ==> x == y
    requires forall y :: y in b ==> exists x :: x in a && to(x) == y
    ensures |a| == |b|
  {
    if a == {} {
      assert forall y :: y !in b;
    } else {
      var x :| x in a;
      forall y | y in b - {to(x)} ensures exists z :: z in a - {x} && to(z) == y {
        var z :| z in a && to(z) == y;
        assert z in a - {x};
      }
      ImageSize(a - {x}, b - {to(x)}, to);
    }
  }

  lemma SomeMember<T>(s: set<T>) returns (x: T)
    requires s != {}
    ensures x in s
  {
    x :| x in s;
  }

  lemma SubsetSize<T>(a: set<T>, b: set<T>)
    requires a <= b
    ensures |a| <= |b|
    ensures a != b ==> |a| < |b|
  {
    assert b == a + (b - a);
  }

  /** The numbers below `n`. */
  ghost function Below(n: nat): (s: set<int>)
    ensures forall i :: i in s <==> 0 <= i < n
    ensures |s| == n
  {
    if n == 0 then {} else Below(n - 1) + {n - 1}
  }

  ghost predicate TotalOn<T(!new)>(s: set<T>, less: (T, T) -> bool) {
    && (forall x {:trigger less(x, x)} :: x in s ==> !less(x, x))
    && (forall x, y {:trigger less(x, y)} :: x in s && y in s ==> x == y || less(x, y) || less(y, x))
    && (forall x, y, z {:trigger less(x, y), less(y, z)} :: x in s && y in s && z in s && less(x, y) && less(y, z) ==> less(x, z))
  }

  lemma {:induction false} LeastExists<T(!new)>(s: set<T>, less: (T, T) -> bool)
    requires s != {} && TotalOn(s, less)
    ensures exists m :: m in s && forall x :: x in s ==> x == m || less(m, x)
  {
    var x :| x in s;
    if s != {x} {
      LeastExists(s - {x}, less);
      var m :| m in s - {x} && forall y :: y in s - {x} ==> y == m || less(m, y);
      var best := if less(x, m) then x else m;
      forall y | y in s ensures y == best || less(best, y) {
        assert y == x || y in s - {x};
      }
    }
  }
}
