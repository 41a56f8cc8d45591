/** Pipeline graphs: named blocks with connections between them, walks, cycles and
    topological orders. Multi-edges are allowed. */
module FlowGraph {

  type Name = string

  /** A node's block type and configuration, as decoded. */
  datatype Node = Node(name: Name, blockType: string, config: string)

  datatype Connection = Connection(source: Name, sourcePort: string, target: Name, targetPort: string)

  datatype Graph = Graph(blocks: seq<Node>, conns: seq<Connection>)

  ghost predicate Distinct<T>(s: seq<T>) {
    forall i, j :: 0 <= i < j < |s| ==> s[i] != s[j]
  }

  ghost function Elements<T>(s: seq<T>): set<T> {
    set i | 0 <= i < |s| :: s[i]
  }

  function Names(g: Graph): seq<Name> {
    seq(|g.blocks|, i requires 0 <= i < |g.blocks| => g.blocks[i].name)
  }

  /** Unique non-empty block names, and connections between declared blocks. */
  ghost predicate WellFormed(g: Graph) {
    && Distinct(Names(g))
    && "" !in Elements(Names(g))
    && forall i :: 0 <= i < |g.conns| ==>
         g.conns[i].source in Elements(Names(g)) && g.conns[i].target in Elements(Names(g))
  }

  ghost predicate Edge(g: Graph, u: Name, v: Name) {
    exists i :: 0 <= i < |g.conns| && g.conns[i].source == u && g.conns[i].target == v
  }

  ghost predicate Walk(g: Graph, p: seq<Name>) {
    forall i, j :: 0 <= i < j < |p| && j == i + 1 ==> Edge(g, p[i], p[j])
  }

  ghost predicate Cycle(g: Graph, p: seq<Name>) {
    |p| >= 2 && Walk(g, p) && p[0] == p[|p| - 1]
  }

  ghost predicate Acyclic(g: Graph) {
    forall p :: !Cycle(g, p)
  }

  /** Every connection that enters `order[j]` comes from an earlier position. */
  ghost predicate Forward(g: Graph, order: seq<Name>) {
    forall i, j :: 0 <= i < |g.conns| && 0 <= j < |order| && g.conns[i].target == order[j] ==>
      g.conns[i].source in Elements(order[..j])
  }

  /** A permutation of the block names with every connection pointing forward. */
  ghost predicate TopologicalOrder(g: Graph, order: seq<Name>) {
    Distinct(order) && Elements(order) == Elements(Names(g)) && Forward(g, order)
  }

  lemma {:induction false} ElementsAppend<T>(a: seq<T>, b: seq<T>)
    ensures Elements(a + b) == Elements(a) + Elements(b)
  {
    assert forall i :: 0 <= i < |a| ==> (a + b)[i] == a[i];
    assert forall i :: 0 <= i < |b| ==> (a + b)[|a| + i] == b[i];
  }

  lemma {:induction false} ElementsOne<T>(x: T)
    ensures Elements([x]) == {x}
  {
    assert [x][0] == x;
  }

  lemma {:induction false} DistinctSize<T>(s: seq<T>)
    requires Distinct(s)
    ensures |Elements(s)| == |s|
  {
    if s != [] {
      var init, last := s[..|s| - 1], s[|s| - 1];
      DistinctSize(init);
      ElementsAppend(init, [last]);
      ElementsOne(last);
      assert s == init + [last];
    }
  }

  lemma {:induction false} SubsetSize<T>(a: set<T>, b: set<T>)
    requires a <= b
    ensures |a| <= |b| && (|a| == |b| ==> a == b)
  {
    if a != {} {
      var x :| x in a;
      SubsetSize(a - {x}, b - {x});
    }
  }

  /** A sequence longer than the set its elements come from repeats an element. */
  lemma {:induction false} Pigeonhole<T>(s: seq<T>, all: set<T>) returns (i: nat, j: nat)
    requires Elements(s) <= all && |all| < |s|
    ensures i < j < |s| && s[i] == s[j]
  {
    if Distinct(s) {
      DistinctSize(s);
      SubsetSize(Elements(s), all);
    }
    i, j :| 0 <= i < j < |s| && s[i] == s[j];
  }

  /** A graph with a forward order has no cycle: positions grow along every walk. */
  lemma {:induction false} ForwardIsAcyclic(g: Graph, order: seq<Name>)
    requires TopologicalOrder(g, order) && WellFormed(g)
    ensures Acyclic(g)
  {
    forall p ensures !Cycle(g, p) {
      if Cycle(g, p) {
        assert Edge(g, p[|p| - 2], p[|p| - 1]);
        var n :| 0 <= n < |order| && order[n] == p[|p| - 1];
        WalkBackwards(g, order, p, |p| - 1, n);
        assert false;
      }
    }
  }

  /** The start of a walk lies strictly before its end in a forward order. */
  lemma {:induction false} WalkBackwards(g: Graph, order: seq<Name>, p: seq<Name>, k: nat, n: nat)
    requires TopologicalOrder(g, order) && Walk(g, p)
    requires 0 < k < |p| && n < |order| && order[n] == p[k]
    ensures p[0] in Elements(order[..n])
  {
    assert Edge(g, p[k - 1], p[k]);
    var i :| 0 <= i < |g.conns| && g.conns[i].source == p[k - 1] && g.conns[i].target == p[k];
    var m :| 0 <= m < n && order[m] == p[k - 1];
    if k > 1 {
      WalkBackwards(g, order, p, k - 1, m);
      assert forall x :: 0 <= x < m ==> order[..n][x] == order[..m][x];
    } else {
      assert order[..n][m] == p[0];
    }
  }

  /** `v` has a predecessor among the stuck blocks. */
  ghost predicate Waits(g: Graph, stuck: set<Name>, v: Name) {
    exists u :: u in stuck && Edge(g, u, v)
  }

  /** Blocks that all wait for one another lie on or behind a cycle. */
  lemma {:induction false} StuckHasCycle(g: Graph, stuck: set<Name>)
    requires stuck != {}
    requires forall v {:trigger Waits(g, stuck, v)} :: v in stuck ==> Waits(g, stuck, v)
    ensures !Acyclic(g)
  {
    var p := LongWalk(g, stuck, |stuck|);
    var i, j := Pigeonhole(p, stuck);
    var q := p[i..j + 1];
    assert forall x :: 0 <= x < |q| ==> q[x] == p[i + x];
    assert Cycle(g, q);
  }

  lemma {:induction false} LongWalk(g: Graph, stuck: set<Name>, n: nat) returns (p: seq<Name>)
    requires stuck != {}
    requires forall v {:trigger Waits(g, stuck, v)} :: v in stuck ==> Waits(g, stuck, v)
    ensures |p| == n + 1 && Walk(g, p) && Elements(p) <= stuck
  {
    if n == 0 {
      var v :| v in stuck;
      p := [v];
    } else {
      var q := LongWalk(g, stuck, n - 1);
      assert q[0] in Elements(q);
      assert Waits(g, stuck, q[0]);
      var u :| u in stuck && Edge(g, u, q[0]);
      p := [u] + q;
      ElementsAppend([u], q);
    }
  }

  lemma {:induction false} DistinctCounts<T>(s: seq<T>)
    ensures Distinct(s) <==> forall x :: multiset(s)[x] <= 1
  {
    if Distinct(s) {
      if s != [] {
        var init, last := s[..|s| - 1], s[|s| - 1];
        DistinctCounts(init);
        assert s == init + [last] && last !in init;
      }
    } else {
      var i, j :| 0 <= i < j < |s| && s[i] == s[j];
      assert s == s[..i] + [s[i]] + s[i + 1..j] + [s[j]] + s[j + 1..];
      assert multiset(s)[s[i]] >= 2;
    }
  }

  /** Permutations have the same elements and the same repetitions. */
  lemma {:induction false} PermutationFacts<T>(a: seq<T>, b: seq<T>)
    requires multiset(a) == multiset(b)
    ensures |a| == |b| && Elements(a) == Elements(b)
    ensures Distinct(a) <==> Distinct(b)
  {
    assert |multiset(a)| == |a| && |multiset(b)| == |b|;
    DistinctCounts(a);
    DistinctCounts(b);
    assert forall x :: x in Elements(a) <==> x in multiset(a);
    assert forall x :: x in Elements(b) <==> x in multiset(b);
  }
}
