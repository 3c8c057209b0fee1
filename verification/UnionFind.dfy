/** `_UnionFind`: disjoint sets over node names, with path compression and least-name roots. */
module UnionFinding {
  import opened StringOrder
  import opened Connectivity

  type Parents = map<string, string>

  /** Parent links stay inside the map and, roots apart, lead to a strictly smaller name. */
  ghost predicate Forest(p: Parents) {
    forall n {:trigger p[n]} :: n in p ==> p[n] in p && Le(p[n], n)
  }

  ghost function Root(p: Parents, n: string): (r: string)
    requires Forest(p) && n in p
    ensures r in p && p[r] == r && Le(r, n)
    decreases Rank(p.Keys, n)
  {
    if p[n] == n then n else
      RankDrops(p.Keys, p[n], n);
      Laws();
      Root(p, p[n])
  }

  /** `n` lies on the parent chain that starts at `a`. */
  ghost predicate OnPath(p: Parents, a: string, n: string)
    requires Forest(p) && a in p
    decreases Rank(p.Keys, a)
  {
    n == a || (p[a] != a && (RankDrops(p.Keys, p[a], a); OnPath(p, p[a], n)))
  }

  ghost predicate SameRoots(p: Parents, q: Parents) {
    && Forest(p) && Forest(q) && p.Keys == q.Keys
    && forall n {:trigger Root(p, n)} {:trigger Root(q, n)} :: n in p ==> Root(p, n) == Root(q, n)
  }

  /** Two nodes have one root exactly when the unioned pairs join them. */
  ghost predicate Represents(p: Parents, links: Links) {
    && Forest(p)
    && (forall a, b :: (a, b) in links ==> a in p && b in p)
    && (forall a, b {:trigger Connected(links, a, b)} {:trigger Root(p, a), Root(p, b)} :: a in p && b in p ==>
         (Root(p, a) == Root(p, b) <==> Connected(links, a, b)))
  }

  /** One step up the chain: same root, smaller rank. */
  lemma Step(p: Parents, n: string)
    requires Forest(p) && n in p
    ensures p[n] in p && Le(p[n], n) && Root(p, p[n]) == Root(p, n)
    ensures p[n] != n ==> Rank(p.Keys, p[n]) < Rank(p.Keys, n)
    ensures p[n] == n ==> Root(p, n) == n
  {
    if p[n] != n { RankDrops(p.Keys, p[n], n); }
  }

  lemma UpdateForest(p: Parents, n: string, r: string)
    requires Forest(p) && n in p && r in p && Le(r, n)
    ensures Forest(p[n := r]) && p[n := r].Keys == p.Keys
  {
    assert p[n := r].Keys == p.Keys;
  }

  lemma {:induction false} CompressOne(p: Parents, q: Parents, n: string, x: string)
    requires Forest(p) && Forest(q) && n in p && x in p
    requires q == p[n := Root(p, n)] && q.Keys == p.Keys
    ensures Root(q, x) == Root(p, x)
    decreases Rank(p.Keys, x)
  {
    hide Forest;
    Step(p, x);
    Step(q, x);
    if x == n {
      Step(q, Root(p, n));
    } else if p[x] != x {
      CompressOne(p, q, n, p[x]);
    }
  }

  /** Pointing a node at its own root changes no root. */
  lemma CompressKeepsRoots(p: Parents, n: string)
    requires Forest(p) && n in p
    ensures SameRoots(p, p[n := Root(p, n)])
  {
    hide Forest;
    var q := p[n := Root(p, n)];
    UpdateForest(p, n, Root(p, n));
    forall x {:trigger Root(p, x)} {:trigger Root(q, x)} | x in p ensures Root(p, x) == Root(q, x) {
      CompressOne(p, q, n, x);
    }
  }

  lemma {:induction false} LinkOne(p: Parents, q: Parents, lo: string, hi: string, x: string)
    requires Forest(p) && Forest(q) && lo in p && hi in p && x in p
    requires p[lo] == lo && p[hi] == hi && lo != hi && q == p[hi := lo] && q.Keys == p.Keys
    ensures Root(q, x) == if Root(p, x) == hi then lo else Root(p, x)
    decreases Rank(p.Keys, x)
  {
    hide Forest;
    Step(p, x);
    Step(q, x);
    if x == hi {
      Step(q, lo);
    } else if p[x] != x {
      LinkOne(p, q, lo, hi, p[x]);
    }
  }

  lemma {:induction false} PathIsAChain(p: Parents, a: string, m: string, n: string)
    requires Forest(p) && a in p
    requires OnPath(p, a, m) && OnPath(p, a, n)
    ensures m in p && Le(m, a) && Le(Root(p, a), m) && Root(p, m) == Root(p, a)
    ensures Lt(n, m) ==> Le(n, p[m])
    ensures p[m] != m ==> OnPath(p, a, p[m])
    decreases Rank(p.Keys, a)
  {
    Laws();
    if p[a] != a {
      RankDrops(p.Keys, p[a], a);
      if m != a && n != a {
        PathIsAChain(p, p[a], m, n);
      } else if m != a {
        PathIsAChain(p, p[a], m, m);
      } else if n != a {
        PathIsAChain(p, p[a], n, n);
      }
    }
  }

  /** The state of `Find`'s second loop: everything passed on the way from `start` to `at` points at the root. */
  ghost predicate Compressing(p: Parents, q: Parents, start: string, at: string) {
    && Forest(p) && start in p && OnPath(p, start, at) && at in p
    && SameRoots(p, q) && Root(p, at) == Root(p, start)
    && (forall n {:trigger q[n]} :: n in p ==>
         q[n] == if OnPath(p, start, n) && Lt(at, n) then Root(p, start) else p[n])
  }

  lemma CompressingStarts(p: Parents, start: string)
    requires Forest(p) && start in p
    ensures Compressing(p, p, start, start)
  {
    forall n | n in p && OnPath(p, start, n) ensures !Lt(start, n) {
      PathIsAChain(p, start, n, n);
      Laws();
    }
  }

  lemma CompressingStep(p: Parents, q: Parents, start: string, at: string)
    requires Compressing(p, q, start, at) && q[at] != Root(p, start)
    ensures Compressing(p, q[at := Root(p, start)], start, q[at]) && Rank(p.Keys, q[at]) < Rank(p.Keys, at)
  {
    hide Forest, Lt, OnPath;
    LtIrreflexive(at);
    var r, next := Root(p, start), p[at];
    Step(p, at);
    CompressKeepsRoots(q, at);
    PathIsAChain(p, start, at, at);
    var q' := q[at := r];
    forall n {:trigger q'[n]} | n in p
      ensures q'[n] == if OnPath(p, start, n) && Lt(next, n) then r else p[n]
    {
      Laws();
      if OnPath(p, start, n) { PathIsAChain(p, start, at, n); }
    }
    forall n {:trigger Root(p, n)} {:trigger Root(q', n)} | n in p ensures Root(p, n) == Root(q', n) {
      assert Root(p, n) == Root(q, n);
    }
  }

  lemma CompressingEnds(p: Parents, q: Parents, start: string, at: string)
    requires Compressing(p, q, start, at) && q[at] == Root(p, start)
    ensures forall n {:trigger q[n]} :: n in p ==> q[n] == if OnPath(p, start, n) then Root(p, start) else p[n]
  {
    hide Forest, OnPath;
    LtIrreflexive(at);
    forall n {:trigger q[n]} | n in p && OnPath(p, start, n) ensures q[n] == Root(p, start) {
      if n != at && !Lt(at, n) {
        LtTotal(at, n);
        PathIsAChain(p, start, at, n);
        PathIsAChain(p, start, n, n);
        Laws();
      }
    }
  }

  lemma SameRootsRepresent(p: Parents, q: Parents, links: Links)
    requires Represents(p, links) && SameRoots(p, q)
    ensures Represents(q, links)
  {
    hide Forest, Connected;
    forall a, b {:trigger Connected(links, a, b)} {:trigger Root(q, a), Root(q, b)} | a in q && b in q
      ensures Root(q, a) == Root(q, b) <==> Connected(links, a, b)
    {
      assert Root(p, a) == Root(q, a) && Root(p, b) == Root(q, b);
    }
  }

  /** The roots after the smaller of two roots has taken the other one over. */
  ghost predicate Linked(p: Parents, q: Parents, a: string, b: string) {
    && Forest(p) && Forest(q) && p.Keys == q.Keys && a in p && b in p
    && forall x {:trigger Root(q, x)} :: x in p ==>
         Root(q, x) == if Root(p, x) in {Root(p, a), Root(p, b)} then Min(Root(p, a), Root(p, b)) else Root(p, x)
  }

  lemma LinkRoots(p: Parents, q: Parents, a: string, b: string)
    requires Forest(p) && a in p && b in p
    requires var ra, rb := Root(p, a), Root(p, b);
             q == if ra == rb then p else p[Max(ra, rb) := Min(ra, rb)]
    ensures Linked(p, q, a, b)
  {
    hide Forest;
    var ra, rb := Root(p, a), Root(p, b);
    if ra != rb {
      LtTotal(ra, rb);
      UpdateForest(p, Max(ra, rb), Min(ra, rb));
      forall x {:trigger Root(q, x)} | x in p
        ensures Root(q, x) == if Root(p, x) in {ra, rb} then Min(ra, rb) else Root(p, x)
      {
        LinkOne(p, q, Min(ra, rb), Max(ra, rb), x);
      }
    }
  }

  /** Uniting the roots of `a` and `b` keeps roots and reachability in step. */
  lemma LinkRepresents(p: Parents, q: Parents, links: Links, a: string, b: string)
    requires Represents(p, links) && Linked(p, q, a, b)
    ensures Represents(q, links + {(a, b)})
  {
    hide Forest, Lt;
    var all := links + {(a, b)};
    forall x, y {:trigger Connected(all, x, y)} {:trigger Root(q, x), Root(q, y)} | x in p && y in p
      ensures Root(q, x) == Root(q, y) <==> Connected(all, x, y)
    {
      if Root(q, x) == Root(q, y) { RootsAgreeJoined(p, q, links, a, b, x, y); }
      if Connected(all, x, y) { JoinedRootsAgree(p, q, links, a, b, x, y); }
    }
  }

  lemma RootsAgreeJoined(p: Parents, q: Parents, links: Links, a: string, b: string, x: string, y: string)
    requires Represents(p, links) && Linked(p, q, a, b) && x in p && y in p && Root(q, x) == Root(q, y)
    ensures Connected(links + {(a, b)}, x, y)
  {
    hide Forest, Lt, Connected;
    var all := links + {(a, b)};
    if Root(p, x) == Root(p, y) {
      Monotone(links, all, x, y);
    } else if Root(p, x) == Root(p, a) {
      JoinThrough(links, x, a, b, y);
    } else {
      JoinThrough(links, y, a, b, x);
      Symmetric(all, y, x);
    }
  }

  lemma JoinedRootsAgree(p: Parents, q: Parents, links: Links, a: string, b: string, x: string, y: string)
    requires Represents(p, links) && Linked(p, q, a, b) && x in p && y in p && Connected(links + {(a, b)}, x, y)
    ensures Root(q, x) == Root(q, y)
  {
    hide Forest, Lt, Connected;
    var all := links + {(a, b)};
    var s := set n | n in p && Root(q, n) == Root(q, x);
    forall u, v | Adjacent(all, u, v) && u in s ensures v in s {
      if Adjacent(links, u, v) {
        OneLink(links, u, v);
        assert Root(p, u) == Root(p, v);
      }
    }
    StaysInside(all, x, y, s);
  }

  lemma JoinThrough(links: Links, x: string, a: string, b: string, y: string)
    requires Connected(links, x, a) && Connected(links, y, b)
    ensures Connected(links + {(a, b)}, x, y)
  {
    var all := links + {(a, b)};
    Monotone(links, all, x, a);
    Monotone(links, all, y, b);
    Symmetric(all, y, b);
    OneLink(all, a, b);
    Transitive(all, x, a, b);
    Transitive(all, x, b, y);
  }

  class UnionFind {
    var parent: Parents
    /** The pairs united so far. */
    ghost var links: Links

    ghost predicate Valid()
      reads this
    {
      Represents(parent, links)
    }

    constructor (nodes: set<string>)
      ensures Valid() && links == {}
      ensures parent == map n | n in nodes :: n
    {
      parent := map n | n in nodes :: n;
      links := {};
      new;
      forall a, b | a in parent && b in parent ensures Root(parent, a) == Root(parent, b) <==> Connected({}, a, b) {
        Reflexive({}, a);
        if Connected({}, a, b) { StaysInside({}, a, b, {a}); }
      }
    }

    /** Returns the least name joined to `node`; every node on the way now points straight at it. */
    method Find(node: string) returns (root: string)
      requires Valid() && node in parent
      modifies this`parent
      ensures Valid() && parent.Keys == old(parent.Keys)
      ensures IsLeast(root, Component(links, parent.Keys, node))
      ensures root == Root(old(parent), node) && SameRoots(old(parent), parent)
      ensures forall n :: n in parent ==>
                parent[n] == if OnPath(old(parent), node, n) then root else old(parent)[n]
    {
      hide Forest, Lt, OnPath, Connected;
      ghost var before := parent;
      root := node;
      while parent[root] != root
        invariant parent == before && root in parent && Root(parent, root) == Root(parent, node)
        decreases Rank(parent.Keys, root)
      {
        Step(parent, root);
        root := parent[root];
      }
      Step(parent, root);
      CompressingStarts(parent, node);
      var at := node;
      while parent[at] != root
        invariant Compressing(before, parent, node, at)
        decreases Rank(before.Keys, at)
      {
        CompressingStep(before, parent, node, at);
        parent, at := parent[at := root], parent[at];
      }
      CompressingEnds(before, parent, node, at);
      SameRootsRepresent(before, parent, links);
      RootIsLeast(before, links, node);
    }

    /** Unites the sets of `a` and `b`; the smaller root wins. */
    method Union(a: string, b: string)
      requires Valid() && a in parent && b in parent
      modifies this
      ensures Valid() && parent.Keys == old(parent.Keys)
      ensures links == old(links) + {(a, b)}
    {
      hide Lt, Forest, IsPath;
      var ra := Find(a);
      var rb := Find(b);
      ghost var found := parent;
      if ra != rb {
        parent := parent[Max(ra, rb) := Min(ra, rb)];
      }
      LinkRoots(found, parent, a, b);
      LinkRepresents(found, parent, links, a, b);
      links := links + {(a, b)};
    }
  }

  /** The root of a set is the least of its names. */
  lemma RootIsLeast(p: Parents, links: Links, n: string)
    requires Represents(p, links) && n in p
    ensures IsLeast(Root(p, n), Component(links, p.Keys, n))
  {
    var c := Component(links, p.Keys, n);
    assert Root(p, Root(p, n)) == Root(p, n);
    forall m | m in c ensures Le(Root(p, n), m) {
      assert Root(p, m) == Root(p, n);
    }
  }

  /** Comparing what `Find` returns for two nodes decides whether they are joined. */
  lemma FindDecides(links: Links, nodes: set<string>, a: string, b: string, ra: string, rb: string)
    requires a in nodes && b in nodes
    requires IsLeast(ra, Component(links, nodes, a)) && IsLeast(rb, Component(links, nodes, b))
    ensures ra == rb <==> Connected(links, a, b)
  {
    hide Connected;
    if ra == rb {
      Symmetric(links, b, ra);
      Connectivity.Transitive(links, a, ra, b);
    }
    if Connected(links, a, b) {
      SameComponent(links, nodes, a, b);
      LeastIsUnique(ra, rb, Component(links, nodes, a));
    }
  }
}
