/** Replacing every block of a graph by a graph of its own: what the spliced result
    inherits from the outer graph and from the parts. */
module FlowSplice {
  import opened FlowGraph

  ghost predicate Before(order: seq<Name>, u: Name, v: Name) {
    exists i, j :: 0 <= i < j < |order| && order[i] == u && order[j] == v
  }

  /** `v` directly follows `u`. */
  ghost predicate Next(order: seq<Name>, u: Name, v: Name) {
    exists i, j :: 0 <= i < j < |order| && j == i + 1 && order[i] == u && order[j] == v
  }

  /** The connections are exactly the consecutive pairs of `order` (repeats allowed). */
  ghost predicate Chain(g: Graph, order: seq<Name>) {
    && Distinct(order) && Elements(order) == Elements(Names(g))
    && (forall i :: 0 <= i < |g.conns| ==> Next(order, g.conns[i].source, g.conns[i].target))
    && Walk(g, order)
  }

  lemma {:induction false} ForwardFromBefore(g: Graph, order: seq<Name>)
    requires Distinct(order)
    requires forall i :: 0 <= i < |g.conns| ==> Before(order, g.conns[i].source, g.conns[i].target)
    ensures Forward(g, order)
  {
    forall i, j | 0 <= i < |g.conns| && 0 <= j < |order| && g.conns[i].target == order[j]
      ensures g.conns[i].source in Elements(order[..j])
    {
      assert Before(order, g.conns[i].source, g.conns[i].target);
      var a, b :| 0 <= a < b < |order| && order[a] == g.conns[i].source && order[b] == g.conns[i].target;
      assert order[..j][a] == order[a];
    }
  }

  lemma {:induction false} BeforeFromForward(g: Graph, order: seq<Name>, i: nat)
    requires TopologicalOrder(g, order) && WellFormed(g) && i < |g.conns|
    ensures Before(order, g.conns[i].source, g.conns[i].target)
  {
    assert g.conns[i].target in Elements(order);
    var j :| 0 <= j < |order| && order[j] == g.conns[i].target;
    var a :| 0 <= a < j && order[..j][a] == g.conns[i].source;
    assert order[a] == g.conns[i].source;
  }

  lemma {:induction false} ChainIsTopological(g: Graph, order: seq<Name>)
    requires Chain(g, order)
    ensures TopologicalOrder(g, order)
  {
    forall i | 0 <= i < |g.conns| ensures Before(order, g.conns[i].source, g.conns[i].target) {
      assert Next(order, g.conns[i].source, g.conns[i].target);
    }
    ForwardFromBefore(g, order);
  }

  /** A chain has only one topological order. */
  lemma {:induction false} ChainOrderIsUnique(g: Graph, chain: seq<Name>, order: seq<Name>)
    requires Chain(g, chain) && TopologicalOrder(g, order)
    ensures order == chain
  {
    DistinctSize(chain);
    DistinctSize(order);
    ChainPrefix(g, chain, order, |chain|);
    assert order[..|chain|] == order && chain[..|chain|] == chain;
  }

  lemma {:induction false} ChainPrefix(g: Graph, chain: seq<Name>, order: seq<Name>, k: nat)
    requires Chain(g, chain) && TopologicalOrder(g, order) && |order| == |chain| && k <= |chain|
    ensures order[..k] == chain[..k]
  {
    if k > 0 {
      var n := k - 1;
      ChainPrefix(g, chain, order, n);
      ChainHead(g, chain, order, n);
      assert order[..k] == order[..n] + [order[n]] && chain[..k] == chain[..n] + [chain[n]];
    }
  }

  /** Where the first `n` agree, so does the next. */
  lemma {:induction false} ChainHead(g: Graph, chain: seq<Name>, order: seq<Name>, n: nat)
    requires Chain(g, chain) && TopologicalOrder(g, order) && |order| == |chain| && n < |chain|
    requires order[..n] == chain[..n]
    ensures order[n] == chain[n]
  {
    assert order[n] in Elements(order);
    var m :| 0 <= m < |chain| && chain[m] == order[n];
    assert forall i :: 0 <= i < n ==> order[..n][i] == order[i] && chain[..n][i] == chain[i];
    assert m >= n;
    if m > 0 {
      var i := Predecessor(g, chain, order, n, m);
      assert chain[i] == chain[m - 1];
    }
  }

  lemma {:induction false} Predecessor(g: Graph, chain: seq<Name>, order: seq<Name>, n: nat, m: nat) returns (i: nat)
    requires Walk(g, chain) && Forward(g, order) && n < |order| && 0 < m < |chain| && chain[m] == order[n]
    ensures i < n && order[..n][i] == chain[m - 1]
  {
    assert Edge(g, chain[m - 1], chain[m]);
    var c :| 0 <= c < |g.conns| && g.conns[c].source == chain[m - 1] && g.conns[c].target == chain[m];
    assert g.conns[c].source in Elements(order[..n]);
    i :| 0 <= i < n && order[..n][i] == chain[m - 1];
  }

  /** Every acyclic graph has a topological order. */
  lemma {:induction false} AcyclicHasOrder(g: Graph) returns (order: seq<Name>)
    requires WellFormed(g) && Acyclic(g)
    ensures TopologicalOrder(g, order)
  {
    order := OrderOf(g, Elements(Names(g)));
    forall i, j | 0 <= i < |g.conns| && 0 <= j < |order| && g.conns[i].target == order[j]
      ensures g.conns[i].source in Elements(order[..j])
    {
      assert g.conns[i].source in Elements(Names(g));
    }
  }

  /** Orders any set of blocks so that connections inside the set point forward. */
  lemma {:induction false} OrderOf(g: Graph, todo: set<Name>) returns (order: seq<Name>)
    requires Acyclic(g)
    ensures Distinct(order) && Elements(order) == todo
    ensures forall i, j :: 0 <= i < |g.conns| && 0 <= j < |order| && g.conns[i].target == order[j] ==>
              g.conns[i].source in todo ==> g.conns[i].source in Elements(order[..j])
    decreases todo
  {
    if todo == {} {
      order := [];
    } else {
      if forall v {:trigger Waits(g, todo, v)} :: v in todo ==> Waits(g, todo, v) {
        StuckHasCycle(g, todo);
      }
      var v {:trigger Waits(g, todo, v)} :| v in todo && !Waits(g, todo, v);
      var rest := OrderOf(g, todo - {v});
      order := [v] + rest;
      ElementsAppend([v], rest);
      ElementsOne(v);
      forall i, j | 0 <= i < |g.conns| && 0 <= j < |order| && g.conns[i].target == order[j] && g.conns[i].source in todo
        ensures g.conns[i].source in Elements(order[..j])
      {
        assert Edge(g, g.conns[i].source, order[j]);
        assert j > 0 && order[j] == rest[j - 1];
        assert order[..j] == [v] + rest[..j - 1];
        ElementsAppend([v], rest[..j - 1]);
      }
    }
  }

  /** The parts of the listed blocks, one after the other. */
  ghost function Flat(order: seq<Name>, parts: map<Name, seq<Name>>): seq<Name>
    requires forall i :: 0 <= i < |order| ==> order[i] in parts
  {
    if order == [] then [] else Flat(order[..|order| - 1], parts) + parts[order[|order| - 1]]
  }

  ghost predicate Parts(order: seq<Name>, parts: map<Name, seq<Name>>) {
    && (forall i :: 0 <= i < |order| ==> order[i] in parts)
    && (forall n :: n in parts ==> Distinct(parts[n]))
    && (forall m, n :: m in parts && n in parts && m != n ==> Elements(parts[m]) !! Elements(parts[n]))
  }

  /** Where the part of block `i` sits in the flattened order. */
  lemma {:induction false} FlatAt(order: seq<Name>, parts: map<Name, seq<Name>>, i: nat)
    requires Parts(order, parts) && i < |order|
    ensures var at := |Flat(order[..i], parts)|;
            && at + |parts[order[i]]| <= |Flat(order, parts)|
            && Flat(order, parts)[at..at + |parts[order[i]]|] == parts[order[i]]
    ensures |Flat(order[..i + 1], parts)| == |Flat(order[..i], parts)| + |parts[order[i]]|
    decreases |order|
  {
    var n := |order| - 1;
    var init := order[..n];
    assert order[..i + 1][..i] == order[..i];
    if i < n {
      FlatAt(init, parts, i);
      assert init[..i] == order[..i];
      var at, len := |Flat(order[..i], parts)|, |parts[order[i]]|;
      assert Flat(order, parts)[at..at + len] == Flat(init, parts)[at..at + len];
    } else {
      assert order[..i] == init;
    }
  }

  lemma {:induction false} FlatGrows(order: seq<Name>, parts: map<Name, seq<Name>>, i: nat, j: nat)
    requires Parts(order, parts) && i <= j <= |order|
    ensures |Flat(order[..i], parts)| <= |Flat(order[..j], parts)| <= |Flat(order, parts)|
    decreases |order| - i
  {
    if i < j {
      FlatAt(order, parts, i);
      FlatGrows(order, parts, i + 1, j);
    } else if j < |order| {
      FlatAt(order, parts, j);
      FlatGrows(order, parts, j + 1, j + 1);
    } else {
      assert order[..j] == order;
    }
  }

  lemma {:induction false} FlatElements(order: seq<Name>, parts: map<Name, seq<Name>>)
    requires Parts(order, parts)
    ensures forall x :: x in Elements(Flat(order, parts)) <==>
        exists i :: 0 <= i < |order| && x in Elements(parts[order[i]])
  {
    if order != [] {
      var n := |order| - 1;
      FlatElements(order[..n], parts);
      ElementsAppend(Flat(order[..n], parts), parts[order[n]]);
      assert forall i :: 0 <= i < n ==> order[..n][i] == order[i];
    }
  }

  ghost predicate Covered(parts: map<Name, seq<Name>>, x: Name) {
    exists n :: n in parts && x in Elements(parts[n])
  }

  lemma {:induction false} FlatCovers(order: seq<Name>, parts: map<Name, seq<Name>>)
    requires Parts(order, parts) && Elements(order) == parts.Keys
    ensures forall x :: x in Elements(Flat(order, parts)) <==> Covered(parts, x)
  {
    FlatElements(order, parts);
    forall x ensures x in Elements(Flat(order, parts)) <==> Covered(parts, x) {
      if Covered(parts, x) {
        var n :| n in parts && x in Elements(parts[n]);
        assert n in Elements(order);
        var i :| 0 <= i < |order| && order[i] == n;
      }
    }
  }

  lemma {:induction false} FlatDistinct(order: seq<Name>, parts: map<Name, seq<Name>>)
    requires Parts(order, parts) && Distinct(order)
    ensures Distinct(Flat(order, parts))
  {
    if order != [] {
      var n := |order| - 1;
      var a, b := Flat(order[..n], parts), parts[order[n]];
      FlatDistinct(order[..n], parts);
      FlatElements(order[..n], parts);
      forall i, j | 0 <= i < |a| && 0 <= j < |b| ensures a[i] != b[j] {
        assert a[i] in Elements(a) && b[j] in Elements(b);
      }
    }
  }

  /** Order between parts follows the order of their blocks. */
  lemma {:induction false} FlatAcross(order: seq<Name>, parts: map<Name, seq<Name>>, i: nat, j: nat, x: nat, y: nat)
    requires Parts(order, parts) && i < j < |order|
    requires x < |parts[order[i]]| && y < |parts[order[j]]|
    ensures Before(Flat(order, parts), parts[order[i]][x], parts[order[j]][y])
    ensures j == i + 1 && x == |parts[order[i]]| - 1 && y == 0 ==>
              Next(Flat(order, parts), parts[order[i]][x], parts[order[j]][y])
  {
    FlatAt(order, parts, i);
    FlatAt(order, parts, j);
    FlatGrows(order, parts, i + 1, j);
    Across(Flat(order, parts), |Flat(order[..i], parts)|, parts[order[i]], |Flat(order[..j], parts)|, parts[order[j]],
        x, y);
  }

  /** `part` stands at position `p` of `flat`. */
  ghost predicate StandsAt(flat: seq<Name>, p: nat, part: seq<Name>) {
    p + |part| <= |flat| && flat[p..p + |part|] == part
  }

  lemma {:induction false} ElementAt(flat: seq<Name>, p: nat, part: seq<Name>, x: nat)
    requires StandsAt(flat, p, part) && x < |part|
    ensures flat[p + x] == part[x]
  {
    assert flat[p + x] == flat[p..p + |part|][x];
  }

  lemma {:induction false} Across(flat: seq<Name>, p: nat, a: seq<Name>, q: nat, b: seq<Name>, x: nat, y: nat)
    requires StandsAt(flat, p, a) && StandsAt(flat, q, b) && p + |a| <= q && x < |a| && y < |b|
    ensures Before(flat, a[x], b[y])
    ensures p + |a| == q && x == |a| - 1 && y == 0 ==> Next(flat, a[x], b[y])
  {
    ElementAt(flat, p, a, x);
    ElementAt(flat, q, b, y);
  }

  lemma {:induction false} Inside(flat: seq<Name>, p: nat, part: seq<Name>, u: Name, v: Name)
    requires StandsAt(flat, p, part)
    ensures Before(part, u, v) ==> Before(flat, u, v)
    ensures Next(part, u, v) ==> Next(flat, u, v)
  {
    if Before(part, u, v) {
      var a, b :| 0 <= a < b < |part| && part[a] == u && part[b] == v;
      ElementAt(flat, p, part, a);
      ElementAt(flat, p, part, b);
    }
    if Next(part, u, v) {
      var a, b :| 0 <= a < b < |part| && b == a + 1 && part[a] == u && part[b] == v;
      ElementAt(flat, p, part, a);
      ElementAt(flat, p, part, b);
    }
  }

  /** Order inside a part is kept. */
  lemma {:induction false} FlatInside(order: seq<Name>, parts: map<Name, seq<Name>>, i: nat, u: Name, v: Name)
    requires Parts(order, parts) && i < |order|
    ensures Before(parts[order[i]], u, v) ==> Before(Flat(order, parts), u, v)
    ensures Next(parts[order[i]], u, v) ==> Next(Flat(order, parts), u, v)
  {
    FlatAt(order, parts, i);
    Inside(Flat(order, parts), |Flat(order[..i], parts)|, parts[order[i]], u, v);
  }

  lemma {:induction false} WalkAppend(g: Graph, a: seq<Name>, b: seq<Name>)
    requires Walk(g, a) && Walk(g, b)
    requires a != [] && b != [] ==> Edge(g, a[|a| - 1], b[0])
    ensures Walk(g, a + b)
  {
  }

  /** Walks through the parts join up to one walk. */
  lemma {:induction false} FlatWalk(g: Graph, order: seq<Name>, parts: map<Name, seq<Name>>)
    requires Parts(order, parts)
    requires forall n :: n in parts ==> parts[n] != [] && Walk(g, parts[n])
    requires forall i, j :: 0 <= i < j < |order| && j == i + 1 ==>
               Edge(g, parts[order[i]][|parts[order[i]]| - 1], parts[order[j]][0])
    ensures Walk(g, Flat(order, parts))
    ensures var flat := Flat(order, parts);
            order != [] ==> flat != [] && flat[|flat| - 1] == parts[order[|order| - 1]][|parts[order[|order| - 1]]| - 1]
  {
    if order != [] {
      var n := |order| - 1;
      FlatWalk(g, order[..n], parts);
      WalkAppend(g, Flat(order[..n], parts), parts[order[n]]);
    }
  }

  function At(m: map<Name, Name>, x: Name): Name {
    if x in m then m[x] else x
  }

  /** Moves connections from blocks to the entry and exit blocks of their parts. */
  function Retarget(conns: seq<Connection>, entry: map<Name, Name>, exit: map<Name, Name>): seq<Connection> {
    seq(|conns|, i requires 0 <= i < |conns| =>
      conns[i].(source := At(exit, conns[i].source), target := At(entry, conns[i].target)))
  }

  ghost function SpliceBlocks(blocks: seq<Node>, parts: map<Name, Graph>): seq<Node>
    requires forall i :: 0 <= i < |blocks| ==> blocks[i].name in parts
  {
    if blocks == [] then [] else
    SpliceBlocks(blocks[..|blocks| - 1], parts) + parts[blocks[|blocks| - 1].name].blocks
  }

  ghost function SpliceConns(blocks: seq<Node>, parts: map<Name, Graph>): seq<Connection>
    requires forall i :: 0 <= i < |blocks| ==> blocks[i].name in parts
  {
    if blocks == [] then [] else
    SpliceConns(blocks[..|blocks| - 1], parts) + parts[blocks[|blocks| - 1].name].conns
  }

  /** The graph with every block replaced by its part. */
  ghost function Splice(g: Graph, parts: map<Name, Graph>, entry: map<Name, Name>, exit: map<Name, Name>): Graph
    requires forall i :: 0 <= i < |g.blocks| ==> g.blocks[i].name in parts
  {
    Graph(SpliceBlocks(g.blocks, parts), Retarget(g.conns, entry, exit) + SpliceConns(g.blocks, parts))
  }

  /** One well-formed part per block, name-disjoint, entered and left at own blocks. */
  ghost predicate Spliceable(g: Graph, parts: map<Name, Graph>, entry: map<Name, Name>, exit: map<Name, Name>) {
    && WellFormed(g) && parts.Keys == Elements(Names(g))
    && (forall i :: 0 <= i < |g.blocks| ==> g.blocks[i].name in parts)
    && (forall n :: n in parts ==> WellFormed(parts[n]))
    && (forall m, n :: m in parts && n in parts && m != n ==>
          Elements(Names(parts[m])) !! Elements(Names(parts[n])))
    && (forall n :: n in parts ==>
          At(entry, n) in Elements(Names(parts[n])) && At(exit, n) in Elements(Names(parts[n])))
  }

  ghost function NamesOf(parts: map<Name, Graph>): map<Name, seq<Name>> {
    map n | n in parts :: Names(parts[n])
  }

  lemma {:induction false} SpliceNames(blocks: seq<Node>, parts: map<Name, Graph>)
    requires forall i :: 0 <= i < |blocks| ==> blocks[i].name in parts
    ensures Names(Graph(SpliceBlocks(blocks, parts), [])) == Flat(Names(Graph(blocks, [])), NamesOf(parts))
  {
    if blocks != [] {
      var n := |blocks| - 1;
      SpliceNames(blocks[..n], parts);
      assert Names(Graph(blocks, []))[..n] == Names(Graph(blocks[..n], []));
    }
  }

  lemma {:induction false} SpliceConnsMembers(blocks: seq<Node>, parts: map<Name, Graph>)
    requires forall i :: 0 <= i < |blocks| ==> blocks[i].name in parts
    ensures forall c :: c in SpliceConns(blocks, parts) <==>
        exists i :: 0 <= i < |blocks| && c in parts[blocks[i].name].conns
  {
    if blocks != [] {
      var n := |blocks| - 1;
      SpliceConnsMembers(blocks[..n], parts);
      assert forall i :: 0 <= i < n ==> blocks[..n][i] == blocks[i];
    }
  }

  /** The connections of a spliced graph: a retargeted outer one or one of a part. */
  lemma {:induction false} SpliceConnection(
    g: Graph, parts: map<Name, Graph>, entry: map<Name, Name>, exit: map<Name, Name>, k: nat)
    returns (outer: bool, i: nat, j: nat)
    requires Spliceable(g, parts, entry, exit)
    requires k < |Splice(g, parts, entry, exit).conns|
    ensures var c := Splice(g, parts, entry, exit).conns[k];
            if outer then
              i < |g.conns| && c.source == At(exit, g.conns[i].source) && c.target == At(entry, g.conns[i].target)
            else
              i < |g.blocks| && j < |parts[g.blocks[i].name].conns| && c == parts[g.blocks[i].name].conns[j]
  {
    var all := Splice(g, parts, entry, exit).conns;
    outer, i, j := k < |g.conns|, 0, 0;
    if outer {
      i := k;
    } else {
      SpliceConnsMembers(g.blocks, parts);
      assert all[k] in SpliceConns(g.blocks, parts);
      i :| 0 <= i < |g.blocks| && all[k] in parts[g.blocks[i].name].conns;
      j :| 0 <= j < |parts[g.blocks[i].name].conns| && parts[g.blocks[i].name].conns[j] == all[k];
    }
  }

  lemma {:induction false} SpliceNamed(g: Graph, parts: map<Name, Graph>, entry: map<Name, Name>, exit: map<Name, Name>)
    requires Spliceable(g, parts, entry, exit)
    ensures Parts(Names(g), NamesOf(parts))
    ensures Names(Splice(g, parts, entry, exit)) == Flat(Names(g), NamesOf(parts))
    ensures Distinct(Names(Splice(g, parts, entry, exit)))
    ensures forall x :: x in Elements(Names(Splice(g, parts, entry, exit))) <==> Covered(NamesOf(parts), x)
  {
    var result := Splice(g, parts, entry, exit);
    SpliceNames(g.blocks, parts);
    assert Names(Graph(g.blocks, [])) == Names(g);
    assert Names(result) == Names(Graph(SpliceBlocks(g.blocks, parts), []));
    SplicePartition(g, parts, entry, exit);
    FlatDistinct(Names(g), NamesOf(parts));
    FlatCovers(Names(g), NamesOf(parts));
  }

  lemma {:induction false} SplicePartition(
    g: Graph, parts: map<Name, Graph>, entry: map<Name, Name>, exit: map<Name, Name>)
    requires Spliceable(g, parts, entry, exit)
    ensures Parts(Names(g), NamesOf(parts))
  {
  }

  lemma {:induction false} SpliceWellFormed(
    g: Graph, parts: map<Name, Graph>, entry: map<Name, Name>, exit: map<Name, Name>)
    requires Spliceable(g, parts, entry, exit)
    ensures WellFormed(Splice(g, parts, entry, exit))
  {
    SpliceNamed(g, parts, entry, exit);
    var result := Splice(g, parts, entry, exit);
    forall k | 0 <= k < |result.conns|
      ensures result.conns[k].source in Elements(Names(result)) && result.conns[k].target in Elements(Names(result))
    {
      var outer, i, j := SpliceConnection(g, parts, entry, exit, k);
      var c := result.conns[k];
      var m, n := if outer then g.conns[i].source else g.blocks[i].name, if outer then g.conns[i].target
          else g.blocks[i].name;
      assert m in parts && c.source in Elements(NamesOf(parts)[m]);
      assert n in parts && c.target in Elements(NamesOf(parts)[n]);
    }
    assert "" !in Elements(Names(result)) by {
      assert !Covered(NamesOf(parts), "");
    }
  }

  /** Orders of the parts, laid out along an order of the outer graph. */
  ghost predicate Orders(g: Graph, parts: map<Name, Graph>, orders: map<Name, seq<Name>>) {
    && orders.Keys == parts.Keys
    && forall n :: n in parts ==> Distinct(orders[n]) && Elements(orders[n]) == Elements(Names(parts[n]))
  }

  lemma {:induction false} OrdersArePartition(
    g: Graph, parts: map<Name, Graph>, entry: map<Name, Name>, exit: map<Name, Name>,
    order: seq<Name>, orders: map<Name, seq<Name>>)
    requires Spliceable(g, parts, entry, exit) && Orders(g, parts, orders)
    requires Distinct(order) && Elements(order) == Elements(Names(g))
    ensures Parts(order, orders) && Distinct(Flat(order, orders))
    ensures Elements(Flat(order, orders)) == Elements(Names(Splice(g, parts, entry, exit)))
  {
    OrdersAreParts(g, parts, entry, exit, order, orders);
    FlatDistinct(order, orders);
    FlatCovers(order, orders);
    SameCover(parts, orders);
    SpliceNamed(g, parts, entry, exit);
  }

  lemma {:induction false} OrdersAreParts(
    g: Graph, parts: map<Name, Graph>, entry: map<Name, Name>, exit: map<Name, Name>,
    order: seq<Name>, orders: map<Name, seq<Name>>)
    requires Spliceable(g, parts, entry, exit) && Orders(g, parts, orders)
    requires Elements(order) == Elements(Names(g))
    ensures Parts(order, orders)
  {
    assert forall i :: 0 <= i < |order| ==> order[i] in Elements(order);
  }

  lemma {:induction false} SameCover(parts: map<Name, Graph>, orders: map<Name, seq<Name>>)
    requires orders.Keys == parts.Keys
    requires forall n :: n in parts ==> Elements(orders[n]) == Elements(Names(parts[n]))
    ensures forall x :: Covered(orders, x) <==> Covered(NamesOf(parts), x)
  {
    forall x ensures Covered(orders, x) <==> Covered(NamesOf(parts), x) {
      if n :| n in orders && x in Elements(orders[n]) {
        assert x in Elements(NamesOf(parts)[n]);
      }
      if n :| n in NamesOf(parts) && x in Elements(NamesOf(parts)[n]) {
        assert n in orders;
      }
    }
  }

  /** Splicing keeps topological orders: an order of the outer graph with each block
      replaced by an order of its part is an order of the result. */
  lemma {:induction false} SpliceTopological(
    g: Graph, parts: map<Name, Graph>, entry: map<Name, Name>, exit: map<Name, Name>,
    order: seq<Name>, orders: map<Name, seq<Name>>)
    requires Spliceable(g, parts, entry, exit) && TopologicalOrder(g, order)
    requires orders.Keys == parts.Keys
    requires forall n :: n in parts ==> TopologicalOrder(parts[n], orders[n])
    ensures forall i :: 0 <= i < |order| ==> order[i] in orders
    ensures TopologicalOrder(Splice(g, parts, entry, exit), Flat(order, orders))
  {
    OrdersArePartition(g, parts, entry, exit, order, orders);
    var result, flat := Splice(g, parts, entry, exit), Flat(order, orders);
    forall k | 0 <= k < |result.conns| ensures Before(flat, result.conns[k].source, result.conns[k].target) {
      var outer, i, j := SpliceConnection(g, parts, entry, exit, k);
      if outer {
        var s, t := g.conns[i].source, g.conns[i].target;
        BeforeFromForward(g, order, i);
        var a, b :| 0 <= a < b < |order| && order[a] == s && order[b] == t;
        assert At(exit, s) in Elements(orders[s]) && At(entry, t) in Elements(orders[t]);
        var x :| 0 <= x < |orders[s]| && orders[s][x] == At(exit, s);
        var y :| 0 <= y < |orders[t]| && orders[t][y] == At(entry, t);
        FlatAcross(order, orders, a, b, x, y);
      } else {
        var n := g.blocks[i].name;
        BeforeFromForward(parts[n], orders[n], j);
        assert n in Elements(order);
        var a :| 0 <= a < |order| && order[a] == n;
        FlatInside(order, orders, a, result.conns[k].source, result.conns[k].target);
      }
    }
    ForwardFromBefore(result, flat);
  }

  /** Entered at the first block of its part's order and left at the last. */
  ghost predicate Ends(
    parts: map<Name, Graph>, entry: map<Name, Name>, exit: map<Name, Name>, orders: map<Name, seq<Name>>) {
    && orders.Keys == parts.Keys
    && forall n :: n in parts ==>
        orders[n] != [] && At(entry, n) == orders[n][0] && At(exit, n) == orders[n][|orders[n]| - 1]
  }

  /** Splicing chains into a chain gives the chain of the chains. */
  lemma {:induction false} SpliceChain(
    g: Graph, parts: map<Name, Graph>, entry: map<Name, Name>, exit: map<Name, Name>,
    order: seq<Name>, orders: map<Name, seq<Name>>)
    requires Spliceable(g, parts, entry, exit) && Chain(g, order)
    requires Ends(parts, entry, exit, orders)
    requires forall n :: n in parts ==> Chain(parts[n], orders[n])
    ensures forall i :: 0 <= i < |order| ==> order[i] in orders
    ensures Chain(Splice(g, parts, entry, exit), Flat(order, orders))
  {
    OrdersArePartition(g, parts, entry, exit, order, orders);
    var result := Splice(g, parts, entry, exit);
    forall k | 0 <= k < |result.conns|
      ensures Next(Flat(order, orders), result.conns[k].source, result.conns[k].target)
    {
      SpliceNext(g, parts, entry, exit, order, orders, k);
    }
    SpliceWalk(g, parts, entry, exit, order, orders);
  }

  lemma {:induction false} SpliceNext(
    g: Graph, parts: map<Name, Graph>, entry: map<Name, Name>, exit: map<Name, Name>,
    order: seq<Name>, orders: map<Name, seq<Name>>, k: nat)
    requires Spliceable(g, parts, entry, exit) && Chain(g, order) && Parts(order, orders)
    requires Ends(parts, entry, exit, orders)
    requires forall n :: n in parts ==> Chain(parts[n], orders[n])
    requires k < |Splice(g, parts, entry, exit).conns|
    ensures Next(Flat(order, orders), Splice(g, parts, entry, exit).conns[k].source,
        Splice(g, parts, entry, exit).conns[k].target)
  {
    var outer, i, j := SpliceConnection(g, parts, entry, exit, k);
    if outer {
      NextAcross(order, orders, g.conns[i].source, g.conns[i].target);
    } else {
      var n := g.blocks[i].name;
      var c := parts[n].conns[j];
      assert Chain(parts[n], orders[n]);
      NextInside(order, orders, n, c.source, c.target);
    }
  }

  lemma {:induction false} NextAcross(order: seq<Name>, orders: map<Name, seq<Name>>, s: Name, t: Name)
    requires Parts(order, orders) && Next(order, s, t) && orders[s] != [] && orders[t] != []
    ensures Next(Flat(order, orders), orders[s][|orders[s]| - 1], orders[t][0])
  {
    var a, b :| 0 <= a < b < |order| && b == a + 1 && order[a] == s && order[b] == t;
    FlatAcross(order, orders, a, b, |orders[s]| - 1, 0);
  }

  lemma {:induction false} NextInside(order: seq<Name>, orders: map<Name, seq<Name>>, n: Name, u: Name, v: Name)
    requires Parts(order, orders) && n in Elements(order) && Next(orders[n], u, v)
    ensures Next(Flat(order, orders), u, v)
  {
    var a :| 0 <= a < |order| && order[a] == n;
    FlatInside(order, orders, a, u, v);
  }

  lemma {:induction false} SpliceWalk(
    g: Graph, parts: map<Name, Graph>, entry: map<Name, Name>, exit: map<Name, Name>,
    order: seq<Name>, orders: map<Name, seq<Name>>)
    requires Spliceable(g, parts, entry, exit) && Walk(g, order) && Parts(order, orders)
    requires Ends(parts, entry, exit, orders)
    requires forall n :: n in parts ==> Walk(parts[n], orders[n])
    ensures Walk(Splice(g, parts, entry, exit), Flat(order, orders))
  {
    var result := Splice(g, parts, entry, exit);
    forall n | n in parts ensures Walk(result, orders[n]) {
      InnerWalk(g, parts, entry, exit, n, orders[n]);
    }
    forall i, j | 0 <= i < j < |order| && j == i + 1
      ensures Edge(result, orders[order[i]][|orders[order[i]]| - 1], orders[order[j]][0])
    {
      JoinEdge(g, parts, entry, exit, order[i], order[j]);
    }
    FlatWalk(result, order, orders);
  }

  lemma {:induction false} JoinEdge(
    g: Graph, parts: map<Name, Graph>, entry: map<Name, Name>, exit: map<Name, Name>, u: Name, v: Name)
    requires Spliceable(g, parts, entry, exit) && Edge(g, u, v)
    ensures Edge(Splice(g, parts, entry, exit), At(exit, u), At(entry, v))
  {
    var c :| 0 <= c < |g.conns| && g.conns[c].source == u && g.conns[c].target == v;
    assert Splice(g, parts, entry, exit).conns[c] == Retarget(g.conns, entry, exit)[c];
  }

  /** Walks of a part are walks of the result. */
  lemma {:induction false} InnerWalk(
    g: Graph, parts: map<Name, Graph>, entry: map<Name, Name>, exit: map<Name, Name>, n: Name, p: seq<Name>)
    requires Spliceable(g, parts, entry, exit) && n in parts && Walk(parts[n], p)
    ensures Walk(Splice(g, parts, entry, exit), p)
  {
    var result := Splice(g, parts, entry, exit);
    SpliceConnsMembers(g.blocks, parts);
    var b :| 0 <= b < |Names(g)| && Names(g)[b] == n;
    forall i, j | 0 <= i < j < |p| && j == i + 1 ensures Edge(result, p[i], p[j]) {
      assert Edge(parts[n], p[i], p[j]);
      var c :| 0 <= c < |parts[n].conns| && parts[n].conns[c].source == p[i] && parts[n].conns[c].target == p[j];
      assert parts[n].conns[c] in parts[g.blocks[b].name].conns;
      assert parts[n].conns[c] in SpliceConns(g.blocks, parts);
      assert parts[n].conns[c] in result.conns;
    }
  }
}
