/** Reachability over undirected links: what "connected component" means. */
module Connectivity {

  type Links = set<(string, string)>

  predicate Adjacent(links: Links, a: string, b: string) {
    (a, b) in links || (b, a) in links
  }

  predicate IsPath(links: Links, p: seq<string>) {
    p != [] && forall i :: 0 <= i < |p| - 1 ==> Adjacent(links, p[i], p[i + 1])
  }

  ghost predicate PathBetween(links: Links, p: seq<string>, a: string, b: string) {
    IsPath(links, p) && p[0] == a && p[|p| - 1] == b
  }

  /** A chain of links joins `a` to `b` (every node is joined to itself). */
  ghost predicate Connected(links: Links, a: string, b: string) {
    exists p :: PathBetween(links, p, a, b)
  }

  /** No link leaves `s`. */
  ghost predicate Closed(links: Links, s: set<string>) {
    forall a, b :: Adjacent(links, a, b) && a in s ==> b in s
  }

  lemma Reflexive(links: Links, a: string)
    ensures Connected(links, a, a)
  {
    assert PathBetween(links, [a], a, a);
  }

  lemma OneLink(links: Links, a: string, b: string)
    requires Adjacent(links, a, b)
    ensures Connected(links, a, b)
  {
    assert PathBetween(links, [a, b], a, b);
  }

  lemma Transitive(links: Links, a: string, b: string, c: string)
    requires Connected(links, a, b) && Connected(links, b, c)
    ensures Connected(links, a, c)
  {
    var p :| PathBetween(links, p, a, b);
    var q :| PathBetween(links, q, b, c);
    assert PathBetween(links, p + q[1..], a, c);
  }

  lemma Symmetric(links: Links, a: string, b: string)
    requires Connected(links, a, b)
    ensures Connected(links, b, a)
  {
    var p :| PathBetween(links, p, a, b);
    var q := seq(|p|, i requires 0 <= i < |p| => p[|p| - 1 - i]);
    forall i | 0 <= i < |q| - 1 ensures Adjacent(links, q[i], q[i + 1]) {
      assert Adjacent(links, p[|p| - 2 - i], p[|p| - 2 - i + 1]);
    }
    assert PathBetween(links, q, b, a);
  }

  /** More links can only join more. */
  lemma Monotone(links: Links, more: Links, a: string, b: string)
    requires links <= more
    requires Connected(links, a, b)
    ensures Connected(more, a, b)
  {
    var p :| PathBetween(links, p, a, b);
    forall i | 0 <= i < |p| - 1 ensures Adjacent(more, p[i], p[i + 1]) {
      assert Adjacent(links, p[i], p[i + 1]);
    }
    assert PathBetween(more, p, a, b);
  }

  lemma {:induction false} PathStaysInside(links: Links, p: seq<string>, s: set<string>)
    requires IsPath(links, p) && Closed(links, s) && p[0] in s
    ensures p[|p| - 1] in s
  {
    if |p| > 1 {
      assert Adjacent(links, p[0], p[1]);
      forall i | 0 <= i < |p[1..]| - 1 ensures Adjacent(links, p[1..][i], p[1..][i + 1]) {
        assert Adjacent(links, p[i + 1], p[i + 2]);
      }
      PathStaysInside(links, p[1..], s);
    }
  }

  /** A closed set that holds one end of a chain holds the other. */
  lemma StaysInside(links: Links, a: string, b: string, s: set<string>)
    requires Connected(links, a, b) && Closed(links, s) && a in s
    ensures b in s
  {
    var p :| PathBetween(links, p, a, b);
    PathStaysInside(links, p, s);
  }

  /** The members of `nodes` joined to `n`. */
  ghost function Component(links: Links, nodes: set<string>, n: string): (c: set<string>)
    ensures forall m :: m in c <==> m in nodes && Connected(links, n, m)
  {
    set m | m in nodes && Connected(links, n, m)
  }

  /** Joined nodes have one and the same component. */
  lemma SameComponent(links: Links, nodes: set<string>, a: string, b: string)
    requires Connected(links, a, b)
    ensures Component(links, nodes, a) == Component(links, nodes, b)
  {
    Symmetric(links, a, b);
    forall m | m in nodes ensures Connected(links, a, m) <==> Connected(links, b, m) {
      if Connected(links, a, m) { Transitive(links, b, a, m); }
      if Connected(links, b, m) { Transitive(links, a, b, m); }
    }
  }
}
