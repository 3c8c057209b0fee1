/** The order Python uses on `str` (code point by code point), and `sorted(set(...))`. */
module StringOrder {

  /** Python's `a < b` on strings. */
  predicate Lt(a: string, b: string) {
    b != [] && (a == [] || a[0] < b[0] || (a[0] == b[0] && Lt(a[1..], b[1..])))
  }

  predicate Le(a: string, b: string) {
    a == b || Lt(a, b)
  }

  /** One text comes before another if it is a proper beginning of it, or has the lower character where they first differ. */
  lemma {:induction false} LtMeans(a: string, b: string)
    ensures Lt(a, b) <==> exists k: nat :: k <= |a| && k < |b| && a[..k] == b[..k] && (k == |a| || a[k] < b[k])
  {
    if a != [] && b != [] && a[0] == b[0] {
      LtMeans(a[1..], b[1..]);
      if Lt(a, b) {
        var k: nat :| k <= |a[1..]| && k < |b[1..]| && a[1..][..k] == b[1..][..k] && (k == |a[1..]| || a[1..][k] < b[1..][k]);
        assert a[..k + 1] == [a[0]] + a[1..][..k] && b[..k + 1] == [b[0]] + b[1..][..k];
      }
      if k: nat :| k <= |a| && k < |b| && a[..k] == b[..k] && (k == |a| || a[k] < b[k]) {
        assert k > 0;
        assert a[1..][..k - 1] == a[..k][1..] && b[1..][..k - 1] == b[..k][1..];
      }
    } else {
      assert a[..0] == b[..0];
      forall k: nat | 0 < k <= |a| && k < |b| ensures a[..k] != b[..k] { assert a[..k][0] == a[0] && b[..k][0] == b[0]; }
    }
  }

  lemma {:induction false} LtIrreflexive(a: string)
    ensures !Lt(a, a)
  {
    if a != [] { LtIrreflexive(a[1..]); }
  }

  lemma {:induction false} LtTransitive(a: string, b: string, c: string)
    requires Lt(a, b) && Lt(b, c)
    ensures Lt(a, c)
  {
    if a != [] && a[0] == b[0] && b[0] == c[0] { LtTransitive(a[1..], b[1..], c[1..]); }
  }

  lemma {:induction false} LtTotal(a: string, b: string)
    ensures Lt(a, b) || a == b || Lt(b, a)
  {
    if a != [] && b != [] && a[0] == b[0] {
      LtTotal(a[1..], b[1..]);
      assert a == [a[0]] + a[1..] && b == [b[0]] + b[1..];
    }
  }

  /** A common prefix does not matter to the comparison. */
  lemma {:induction false} PrefixCancels(p: string, a: string, b: string)
    ensures Lt(p + a, p + b) <==> Lt(a, b)
  {
    if p == [] {
      assert p + a == a && p + b == b;
    } else {
      PrefixCancels(p[1..], a, b);
      assert (p + a)[1..] == p[1..] + a && (p + b)[1..] == p[1..] + b;
    }
  }

  lemma LeTransitive(a: string, b: string, c: string)
    requires Le(a, b) && Le(b, c)
    ensures Le(a, c)
  {
    if Lt(a, b) && Lt(b, c) { LtTransitive(a, b, c); }
  }

  lemma Laws()
    ensures forall a :: !Lt(a, a)
    ensures forall a, b, c :: Lt(a, b) && Lt(b, c) ==> Lt(a, c)
    ensures forall a, b :: Lt(a, b) || a == b || Lt(b, a)
  {
    forall a ensures !Lt(a, a) { LtIrreflexive(a); }
    forall a, b, c | Lt(a, b) && Lt(b, c) ensures Lt(a, c) { LtTransitive(a, b, c); }
    forall a, b ensures Lt(a, b) || a == b || Lt(b, a) { LtTotal(a, b); }
  }

  function Min(a: string, b: string): string {
    if Lt(b, a) then b else a
  }

  function Max(a: string, b: string): string {
    if Lt(b, a) then a else b
  }

  ghost predicate IsLeast(m: string, s: set<string>) {
    m in s && forall x :: x in s ==> Le(m, x)
  }

  lemma {:induction false} LeastExists(s: set<string>)
    requires s != {}
    ensures exists m :: IsLeast(m, s)
  {
    Laws();
    var x :| x in s;
    if s == {x} {
      assert IsLeast(x, s);
    } else {
      LeastExists(s - {x});
      var m :| IsLeast(m, s - {x});
      var low := if Lt(x, m) then x else m;
      forall y | y in s ensures Le(low, y) {
        assert y == x || y in s - {x};
      }
      assert IsLeast(low, s);
    }
  }

  /** `min(s)`. */
  function Least(s: set<string>): (m: string)
    requires s != {}
    ensures IsLeast(m, s)
  {
    LeastExists(s);
    Laws();
    var m :| m in s && forall x :: x in s ==> Le(m, x);
    m
  }

  lemma LeastIsUnique(a: string, b: string, s: set<string>)
    requires IsLeast(a, s) && IsLeast(b, s)
    ensures a == b
  {
    Laws();
  }

  predicate StrictlySorted(xs: seq<string>) {
    forall i, j :: 0 <= i < j < |xs| ==> Lt(xs[i], xs[j])
  }

  /** `sorted(s)` for a set: strictly increasing and holding exactly the members of `s`. */
  function Sorted(s: set<string>): (xs: seq<string>)
    ensures StrictlySorted(xs)
    ensures forall x :: x in xs <==> x in s
  {
    if s == {} then [] else
      var m := Least(s);
      var rest := Sorted(s - {m});
      assert forall x :: x in rest ==> Lt(m, x);
      assert forall j :: 0 <= j < |rest| ==> rest[j] in rest;
      [m] + rest
  }

  type StringPair = (string, string)

  /** Python's `a < b` on pairs of strings. */
  predicate PairLt(a: StringPair, b: StringPair) {
    Lt(a.0, b.0) || (a.0 == b.0 && Lt(a.1, b.1))
  }

  lemma PairLaws(a: StringPair, b: StringPair, c: StringPair)
    ensures !PairLt(a, a)
    ensures PairLt(a, b) && PairLt(b, c) ==> PairLt(a, c)
    ensures PairLt(a, b) || a == b || PairLt(b, a)
  {
    hide Lt;
    Laws();
  }

  predicate IsLeastPair(m: StringPair, s: set<StringPair>) {
    m in s && forall x :: x in s ==> x == m || PairLt(m, x)
  }

  lemma {:induction false} OneLeastPair(s: set<StringPair>)
    requires s != {}
    ensures exists m :: IsLeastPair(m, s)
    ensures forall m, m' :: IsLeastPair(m, s) && IsLeastPair(m', s) ==> m == m'
  {
    hide PairLt;
    forall m, m' | IsLeastPair(m, s) && IsLeastPair(m', s) ensures m == m' { PairLaws(m, m', m); }
    var x :| x in s;
    if s == {x} {
      assert IsLeastPair(x, s);
    } else {
      OneLeastPair(s - {x});
      var m :| IsLeastPair(m, s - {x});
      PairLaws(x, m, x);
      var low := if PairLt(x, m) then x else m;
      forall y | y in s ensures y == low || PairLt(low, y) {
        assert y == x || y in s - {x};
        PairLaws(x, m, y);
      }
      assert IsLeastPair(low, s);
    }
  }

  predicate PairsSorted(xs: seq<StringPair>) {
    forall i, j :: 0 <= i < j < |xs| ==> PairLt(xs[i], xs[j])
  }

  /** `sorted(s)` for a set of pairs. */
  function SortedPairs(s: set<StringPair>): (xs: seq<StringPair>)
    ensures PairsSorted(xs)
    ensures forall x :: x in xs <==> x in s
  {
    if s == {} then [] else
      OneLeastPair(s);
      var m :| IsLeastPair(m, s);
      var rest := SortedPairs(s - {m});
      assert forall j :: 0 <= j < |rest| ==> rest[j] in rest;
      [m] + rest
  }

  /** How many members of `keys` lie strictly below `n`: the measure that falls along parent links. */
  ghost function Rank(keys: set<string>, n: string): nat {
    |set m | m in keys && Lt(m, n)|
  }

  lemma RankDrops(keys: set<string>, a: string, b: string)
    requires a in keys && Lt(a, b)
    ensures Rank(keys, a) < Rank(keys, b)
  {
    Laws();
    var low := set m | m in keys && Lt(m, a);
    var high := set m | m in keys && Lt(m, b);
    assert low <= high && a in high && a !in low;
    SubsetSmaller(low, high);
  }

  lemma SubsetSmaller(low: set<string>, high: set<string>)
    requires low < high
    ensures |low| < |high|
  {
    assert high == low + (high - low);
  }
}
