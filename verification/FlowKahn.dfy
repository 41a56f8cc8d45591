/** Kahn's algorithm, three times: the topological order of a pipeline, the pipeline
    validator, and the store's validator. */
module FlowKahn {
  import opened Wrappers
  import opened FlowGraph

  type Degrees = map<Name, int>

  /** Connections into `v` whose source is not done yet. */
  ghost function Waiting(conns: seq<Connection>, v: Name, done: set<Name>): nat {
    if conns == [] then 0 else
    var c := conns[|conns| - 1];
    Waiting(conns[..|conns| - 1], v, done) + if c.target == v && c.source !in done then 1 else 0
  }

  /** The targets of the connections out of `u`, in declaration order. */
  function Targets(conns: seq<Connection>, u: Name): seq<Name> {
    if conns == [] then [] else
    var rest, c := Targets(conns[..|conns| - 1], u), conns[|conns| - 1];
    if c.source == u then rest + [c.target] else rest
  }

  ghost function Occurrences(s: seq<Name>, v: Name): nat {
    if s == [] then 0 else
    Occurrences(s[..|s| - 1], v) + if s[|s| - 1] == v then 1 else 0
  }

  /** Finishing `u` takes its connections into `v` off the count of `v`. */
  lemma {:induction false} WaitingStep(conns: seq<Connection>, v: Name, done: set<Name>, u: Name)
    requires u !in done
    ensures Waiting(conns, v, done) == Waiting(conns, v, done + {u}) + Occurrences(Targets(conns, u), v)
  {
    if conns != [] {
      var rest, c := conns[..|conns| - 1], conns[|conns| - 1];
      WaitingStep(rest, v, done, u);
      var ts := Targets(rest, u);
      assert (ts + [c.target])[..|ts|] == ts;
    }
  }

  lemma {:induction false} WaitingZero(conns: seq<Connection>, v: Name, done: set<Name>)
    ensures Waiting(conns, v, done) == 0 <==>
            forall i :: 0 <= i < |conns| && conns[i].target == v ==> conns[i].source in done
  {
    if conns != [] {
      var rest := conns[..|conns| - 1];
      WaitingZero(rest, v, done);
      assert forall i :: 0 <= i < |rest| ==> conns[i] == rest[i];
      if Waiting(conns, v, done) == 0 {
        forall i | 0 <= i < |conns| && conns[i].target == v ensures conns[i].source in done {
          if i < |rest| { assert rest[i].target == v; }
        }
      } else if Waiting(rest, v, done) > 0 {
        var i :| 0 <= i < |rest| && rest[i].target == v && rest[i].source !in done;
        assert conns[i].target == v && conns[i].source !in done;
      } else {
        assert conns[|conns| - 1].source !in done;
      }
    }
  }

  lemma {:induction false} OccurrencesZero(s: seq<Name>, v: Name)
    ensures Occurrences(s, v) == 0 <==> v !in Elements(s)
  {
    if s != [] {
      OccurrencesZero(s[..|s| - 1], v);
      ElementsAppend(s[..|s| - 1], [s[|s| - 1]]);
      assert s == s[..|s| - 1] + [s[|s| - 1]];
    }
  }

  lemma {:induction false} OccurrencesPrefix(s: seq<Name>, n: nat, v: Name)
    requires n <= |s|
    ensures Occurrences(s[..n], v) <= Occurrences(s, v)
    decreases |s|
  {
    if n < |s| {
      OccurrencesPrefix(s[..|s| - 1], n, v);
      assert s[..|s| - 1][..n] == s[..n];
    } else {
      assert s[..n] == s;
    }
  }

  /** The state between two rounds: `order` is finished, `queue` is ready, the degrees
      count the connections from unfinished blocks, and exactly the blocks with degree
      zero are finished or ready. */
  ghost predicate Rounds(g: Graph, inDeg: Degrees, order: seq<Name>, queue: seq<Name>) {
    && Distinct(order + queue)
    && Elements(order + queue) <= Elements(Names(g))
    && inDeg.Keys == Elements(Names(g))
    && (forall v :: v in inDeg ==> inDeg[v] == Waiting(g.conns, v, Elements(order)))
    && (forall v :: v in inDeg ==> (inDeg[v] == 0 <==> v in Elements(order + queue)))
    && Forward(g, order)
  }

  /** What relaxing the successors of one block must achieve. */
  ghost predicate Released(inDeg: Degrees, succs: seq<Name>, inDeg': Degrees, ready: seq<Name>) {
    && inDeg'.Keys == inDeg.Keys
    && (forall v :: v in inDeg ==> inDeg[v] == inDeg'[v] + Occurrences(succs, v))
    && Distinct(ready)
    && (forall v :: v in Elements(ready) <==> v in inDeg && inDeg'[v] == 0 && inDeg[v] > 0)
  }

  lemma {:induction false} HeadIsNew(order: seq<Name>, n: Name, rest: seq<Name>)
    requires Distinct(order + [n] + rest)
    ensures n !in Elements(order) && n in Elements(order + [n] + rest)
    ensures Elements(order + [n]) == Elements(order) + {n}
  {
    var all := order + [n] + rest;
    assert all[|order|] == n && forall i :: 0 <= i < |order| ==> all[i] == order[i];
    ElementsAppend(order, [n]);
    ElementsOne(n);
  }

  /** One round keeps the state. */
  lemma {:induction false} Round(
    g: Graph, inDeg: Degrees, order: seq<Name>, n: Name, rest: seq<Name>, inDeg': Degrees, ready: seq<Name>)
    requires WellFormed(g) && Rounds(g, inDeg, order, [n] + rest)
    requires Released(inDeg, Targets(g.conns, n), inDeg', ready)
    ensures Rounds(g, inDeg', order + [n], rest + ready)
  {
    hide Elements, Distinct, Forward, Waiting;
    var done := Elements(order);
    assert order + ([n] + rest) == order + [n] + rest;
    HeadIsNew(order, n, rest);
    forall v | v in inDeg ensures inDeg'[v] == Waiting(g.conns, v, done + {n}) {
      WaitingStep(g.conns, v, done, n);
    }
    RoundQueue(inDeg, order + [n] + rest, inDeg', ready);
    assert order + [n] + (rest + ready) == order + [n] + rest + ready;
    RoundForward(g, inDeg, order, n);
  }

  lemma {:induction false} RoundQueue(inDeg: Degrees, seen: seq<Name>, inDeg': Degrees, ready: seq<Name>)
    requires Distinct(seen) && Distinct(ready) && inDeg'.Keys == inDeg.Keys
    requires forall v :: v in inDeg ==> (inDeg[v] == 0 <==> v in Elements(seen))
    requires forall v :: v in inDeg ==> 0 <= inDeg'[v] <= inDeg[v]
    requires forall v :: v in Elements(ready) <==> v in inDeg && inDeg'[v] == 0 && inDeg[v] > 0
    ensures Distinct(seen + ready)
    ensures Elements(seen + ready) == Elements(seen) + Elements(ready)
    ensures forall v :: v in inDeg ==> (inDeg'[v] == 0 <==> v in Elements(seen + ready))
  {
    ElementsAppend(seen, ready);
    forall i, j | 0 <= i < j < |seen + ready| ensures (seen + ready)[i] != (seen + ready)[j] {
      if i < |seen| <= j {
        assert seen[i] in Elements(seen) && ready[j - |seen|] in Elements(ready);
      }
    }
  }

  lemma {:induction false} RoundForward(g: Graph, inDeg: Degrees, order: seq<Name>, n: Name)
    requires Forward(g, order) && n in inDeg && inDeg[n] == 0
    requires inDeg[n] == Waiting(g.conns, n, Elements(order))
    ensures Forward(g, order + [n])
  {
    WaitingZero(g.conns, n, Elements(order));
    var next := order + [n];
    assert next[..|order|] == order;
    assert forall j :: 0 <= j < |order| ==> next[..j] == order[..j];
  }

  /** When nothing is ready any more, all blocks are finished exactly if the graph is
      acyclic, and then they are in topological order. */
  lemma {:induction false} Finished(g: Graph, inDeg: Degrees, order: seq<Name>)
    requires WellFormed(g) && Rounds(g, inDeg, order, [])
    ensures |order| == |g.blocks| <==> Acyclic(g)
    ensures |order| == |g.blocks| ==> TopologicalOrder(g, order)
    ensures |order| <= |g.blocks|
  {
    assert order + [] == order;
    DistinctSize(order);
    DistinctSize(Names(g));
    SubsetSize(Elements(order), Elements(Names(g)));
    if |order| == |g.blocks| {
      ForwardIsAcyclic(g, order);
    } else {
      var stuck := Elements(Names(g)) - Elements(order);
      assert Elements(order) + stuck == Elements(Names(g));
      forall v {:trigger Waits(g, stuck, v)} | v in stuck ensures Waits(g, stuck, v) {
        WaitingZero(g.conns, v, Elements(order));
        var i :| 0 <= i < |g.conns| && g.conns[i].target == v && g.conns[i].source !in Elements(order);
        assert Edge(g, g.conns[i].source, v);
      }
      StuckHasCycle(g, stuck);
    }
  }

  ghost function Positive(inDeg: Degrees): set<Name> {
    set v | v in inDeg && inDeg[v] > 0
  }

  function Successors(adj: map<Name, seq<Name>>, u: Name): seq<Name> {
    if u in adj then adj[u] else []
  }

  /** Degree zero for every block. */
  method ZeroDegrees(g: Graph) returns (inDeg: Degrees)
    ensures inDeg.Keys == Elements(Names(g))
    ensures forall v :: v in inDeg ==> inDeg[v] == 0
  {
    inDeg := map[];
    for i := 0 to |g.blocks|
      invariant inDeg.Keys == Elements(Names(g)[..i])
      invariant forall v :: v in inDeg ==> inDeg[v] == 0
    {
      ElementsAppend(Names(g)[..i], [g.blocks[i].name]);
      ElementsOne(g.blocks[i].name);
      assert Names(g)[..i + 1] == Names(g)[..i] + [g.blocks[i].name];
      inDeg := inDeg[g.blocks[i].name := 0];
    }
    assert Names(g)[..|g.blocks|] == Names(g);
  }

  /** In-degrees and adjacency lists of a graph. */
  method CountDegrees(g: Graph) returns (inDeg: Degrees, adj: map<Name, seq<Name>>)
    ensures forall u :: Successors(adj, u) == Targets(g.conns, u)
    ensures Elements(Names(g)) <= inDeg.Keys
    ensures forall i :: 0 <= i < |g.conns| ==> g.conns[i].target in inDeg
    ensures WellFormed(g) ==> inDeg.Keys == Elements(Names(g))
    ensures forall v :: v in inDeg ==> inDeg[v] == Waiting(g.conns, v, {})
  {
    inDeg := ZeroDegrees(g);
    adj := map[];
    for i := 0 to |g.conns|
      invariant Elements(Names(g)) <= inDeg.Keys
      invariant forall j :: 0 <= j < i ==> g.conns[j].target in inDeg
      invariant WellFormed(g) ==> inDeg.Keys == Elements(Names(g))
      invariant Counted(g.conns[..i], inDeg, adj)
    {
      var c := g.conns[i];
      assert g.conns[..i + 1] == g.conns[..i] + [c];
      CountedStep(g.conns[..i], inDeg, adj, c);
      inDeg := inDeg[c.target := (if c.target in inDeg then inDeg[c.target] else 0) + 1];
      adj := adj[c.source := Successors(adj, c.source) + [c.target]];
    }
    assert g.conns[..|g.conns|] == g.conns;
  }

  /** Degrees and successor lists as the connections say; a block not counted yet has
      nothing pointing at it. */
  ghost predicate Counted(conns: seq<Connection>, inDeg: Degrees, adj: map<Name, seq<Name>>) {
    && (forall v :: v in inDeg ==> inDeg[v] == Waiting(conns, v, {}))
    && (forall v :: v !in inDeg ==> Waiting(conns, v, {}) == 0)
    && (forall u :: Successors(adj, u) == Targets(conns, u))
  }

  lemma {:induction false} CountedStep(conns: seq<Connection>, inDeg: Degrees, adj: map<Name, seq<Name>>, c: Connection)
    requires Counted(conns, inDeg, adj)
    ensures Counted(conns + [c], inDeg[c.target := (if c.target in inDeg then inDeg[c.target] else 0) + 1],
                    adj[c.source := Successors(adj, c.source) + [c.target]])
  {
    var more := conns + [c];
    assert more[..|conns|] == conns && more[|conns|] == c;
    forall v ensures Waiting(more, v, {}) == Waiting(conns, v, {}) + if c.target == v then 1 else 0 {
    }
    forall u ensures Targets(more, u) == if c.source == u then Targets(conns, u) + [c.target] else Targets(conns, u) {
    }
  }

  lemma {:induction false} PositiveStep(inDeg: Degrees, nb: Name)
    requires nb in inDeg
    ensures |Positive(inDeg[nb := inDeg[nb] - 1])| + (if inDeg[nb] == 1 then 1 else 0) <= |Positive(inDeg)|
  {
    var next := inDeg[nb := inDeg[nb] - 1];
    if inDeg[nb] == 1 {
      assert Positive(next) == Positive(inDeg) - {nb};
    } else {
      SubsetSize(Positive(next), Positive(inDeg));
    }
  }

  /** The ready list is exactly what has reached degree zero. */
  ghost predicate Ready(inDeg: Degrees, now: Degrees, ready: seq<Name>) {
    && Distinct(ready)
    && forall v :: v in Elements(ready) <==> v in inDeg && v in now && now[v] == 0 && inDeg[v] > 0
  }

  lemma {:induction false} ReadyStep(inDeg: Degrees, now: Degrees, ready: seq<Name>, nb: Name)
    requires Ready(inDeg, now, ready) && nb in inDeg && nb in now && 0 < now[nb] <= inDeg[nb]
    ensures now[nb] == 1 ==> Ready(inDeg, now[nb := now[nb] - 1], ready + [nb])
    ensures now[nb] != 1 ==> Ready(inDeg, now[nb := now[nb] - 1], ready)
  {
    ElementsAppend(ready, [nb]);
    ElementsOne(nb);
    assert nb !in Elements(ready);
    assert forall i :: 0 <= i < |ready| ==> ready[i] in Elements(ready);
  }

  /** Takes one finished block off the degrees of its successors and collects the
      blocks that become ready. */
  method Release(inDeg: Degrees, succs: seq<Name>) returns (inDeg': Degrees, ready: seq<Name>)
    requires Elements(succs) <= inDeg.Keys
    ensures inDeg'.Keys == inDeg.Keys
    ensures |Positive(inDeg')| + |ready| <= |Positive(inDeg)|
    ensures (forall v :: v in inDeg ==> Occurrences(succs, v) <= inDeg[v]) ==> Released(inDeg, succs, inDeg', ready)
  {
    inDeg', ready := inDeg, [];
    ghost var exact := forall v :: v in inDeg ==> Occurrences(succs, v) <= inDeg[v];
    for i := 0 to |succs|
      invariant inDeg'.Keys == inDeg.Keys
      invariant forall v :: v in inDeg ==> inDeg'[v] == inDeg[v] - Occurrences(succs[..i], v)
      invariant |Positive(inDeg')| + |ready| <= |Positive(inDeg)|
      invariant exact ==> Ready(inDeg, inDeg', ready)
    {
      var nb := succs[i];
      assert succs[..i + 1][..i] == succs[..i] && nb in Elements(succs);
      PositiveStep(inDeg', nb);
      if exact {
        OccurrencesPrefix(succs, i + 1, nb);
        ReadyStep(inDeg, inDeg', ready, nb);
      }
      inDeg' := inDeg'[nb := inDeg'[nb] - 1];
      if inDeg'[nb] == 0 {
        ready := ready + [nb];
      }
    }
    assert succs[..|succs|] == succs;
  }

  /** Position of a block in the declaration; the number of blocks if unknown. */
  function BlockIndex(g: Graph, name: Name): nat {
    IndexFrom(g.blocks, name)
  }

  function IndexFrom(blocks: seq<Node>, name: Name): nat {
    if blocks == [] || blocks[0].name == name then 0 else 1 + IndexFrom(blocks[1..], name)
  }

  ghost predicate SortedByIndex(g: Graph, s: seq<Name>) {
    forall i, j :: 0 <= i < j < |s| ==> BlockIndex(g, s[i]) <= BlockIndex(g, s[j])
  }

  function Insert(g: Graph, s: seq<Name>, x: Name): (r: seq<Name>)
    ensures multiset(r) == multiset(s) + multiset{x}
  {
    if s == [] || BlockIndex(g, s[|s| - 1]) <= BlockIndex(g, x) then s + [x]
    else
      assert s == s[..|s| - 1] + [s[|s| - 1]];
      Insert(g, s[..|s| - 1], x) + [s[|s| - 1]]
  }

  lemma {:induction false} InsertBounded(g: Graph, s: seq<Name>, x: Name, k: nat)
    requires BlockIndex(g, x) <= k && forall i :: 0 <= i < |s| ==> BlockIndex(g, s[i]) <= k
    ensures forall i :: 0 <= i < |Insert(g, s, x)| ==> BlockIndex(g, Insert(g, s, x)[i]) <= k
  {
    if s != [] && BlockIndex(g, s[|s| - 1]) > BlockIndex(g, x) {
      InsertBounded(g, s[..|s| - 1], x, k);
    }
  }

  lemma {:induction false} InsertSorted(g: Graph, s: seq<Name>, x: Name)
    requires SortedByIndex(g, s)
    ensures SortedByIndex(g, Insert(g, s, x))
  {
    if s != [] && BlockIndex(g, s[|s| - 1]) > BlockIndex(g, x) {
      InsertSorted(g, s[..|s| - 1], x);
      InsertBounded(g, s[..|s| - 1], x, BlockIndex(g, s[|s| - 1]));
    }
  }

  function SortByIndex(g: Graph, s: seq<Name>): (r: seq<Name>)
    ensures multiset(r) == multiset(s) && SortedByIndex(g, r)
  {
    if s == [] then []
    else
      assert s == s[..|s| - 1] + [s[|s| - 1]];
      var rest := SortByIndex(g, s[..|s| - 1]);
      InsertSorted(g, rest, s[|s| - 1]);
      Insert(g, rest, s[|s| - 1])
  }

  /** The blocks nothing leads into. */
  ghost function Sources(g: Graph): set<Name> {
    set v | v in Elements(Names(g)) && Waiting(g.conns, v, {}) == 0
  }

  /** The blocks with degree zero, in declaration order. */
  method InitialQueue(g: Graph, inDeg: Degrees) returns (queue: seq<Name>)
    requires Elements(Names(g)) <= inDeg.Keys
    ensures Elements(queue) == set v | v in Elements(Names(g)) && inDeg[v] == 0
    ensures Distinct(Names(g)) ==> Distinct(queue)
  {
    queue := [];
    for i := 0 to |g.blocks|
      invariant Elements(queue) == set v | v in Elements(Names(g)[..i]) && v in inDeg && inDeg[v] == 0
      invariant Distinct(Names(g)) ==> Distinct(queue)
    {
      var name := g.blocks[i].name;
      assert Names(g)[i] == name && name in Elements(Names(g));
      assert Names(g)[..i + 1] == Names(g)[..i] + [name];
      ElementsAppend(Names(g)[..i], [name]);
      ElementsOne(name);
      if inDeg[name] == 0 {
        ElementsAppend(queue, [name]);
        assert forall j :: 0 <= j < |queue| ==> queue[j] in Elements(queue);
        queue := queue + [name];
      }
    }
    assert Names(g)[..|g.blocks|] == Names(g);
  }

  lemma {:induction false} RoundsStart(g: Graph, inDeg: Degrees, queue: seq<Name>)
    requires WellFormed(g) && inDeg.Keys == Elements(Names(g))
    requires forall v :: v in inDeg ==> inDeg[v] == Waiting(g.conns, v, {})
    requires Distinct(queue) && Elements(queue) == set v | v in Elements(Names(g)) && inDeg[v] == 0
    ensures Rounds(g, inDeg, [], queue) && Elements(queue) == Sources(g)
  {
    var none: seq<Name> := [];
    assert none + queue == queue && Elements(none) == {};
  }

  lemma {:induction false} RoundIsExact(g: Graph, inDeg: Degrees, order: seq<Name>, n: Name, rest: seq<Name>)
    requires Rounds(g, inDeg, order, [n] + rest)
    ensures n in inDeg
    ensures forall v :: v in inDeg ==> Occurrences(Targets(g.conns, n), v) <= inDeg[v]
  {
    var all := order + ([n] + rest);
    assert all[|order|] == n && n in Elements(all) && forall i :: 0 <= i < |order| ==> all[i] == order[i];
    forall v | v in inDeg ensures Occurrences(Targets(g.conns, n), v) <= inDeg[v] {
      WaitingStep(g.conns, v, Elements(order), n);
    }
  }

  lemma {:induction false} TargetsKnown(conns: seq<Connection>, u: Name, known: set<Name>)
    requires forall i :: 0 <= i < |conns| ==> conns[i].target in known
    ensures Elements(Targets(conns, u)) <= known
  {
    if conns != [] {
      var rest, c := conns[..|conns| - 1], conns[|conns| - 1];
      assert forall i :: 0 <= i < |rest| ==> rest[i] == conns[i];
      TargetsKnown(rest, u, known);
      ElementsAppend(Targets(rest, u), [c.target]);
      ElementsOne(c.target);
    }
  }

  /** One round: finishes the head of the queue. The state is kept whether or not the
      newly ready blocks are sorted. */
  method NextRound(g: Graph, inDeg: Degrees, adj: map<Name, seq<Name>>, ghost order: seq<Name>, queue: seq<Name>)
    returns (inDeg': Degrees, ready: seq<Name>)
    requires queue != []
    requires forall i :: 0 <= i < |g.conns| ==> g.conns[i].target in inDeg
    requires forall u :: Successors(adj, u) == Targets(g.conns, u)
    ensures inDeg'.Keys == inDeg.Keys
    ensures |Positive(inDeg')| + |ready| <= |Positive(inDeg)|
    ensures WellFormed(g) && Rounds(g, inDeg, order, queue) ==>
              && Rounds(g, inDeg', order + [queue[0]], queue[1..] + ready)
              && Rounds(g, inDeg', order + [queue[0]], queue[1..] + SortByIndex(g, ready))
  {
    var n := queue[0];
    TargetsKnown(g.conns, n, inDeg.Keys);
    inDeg', ready := Release(inDeg, Successors(adj, n));
    if WellFormed(g) && Rounds(g, inDeg, order, queue) {
      assert queue == [n] + queue[1..];
      RoundIsExact(g, inDeg, order, n, queue[1..]);
      Round(g, inDeg, order, n, queue[1..], inDeg', ready);
      PermutationFacts(SortByIndex(g, ready), ready);
      Round(g, inDeg, order, n, queue[1..], inDeg', SortByIndex(g, ready));
    }
  }

  lemma {:induction false} PrefixKept(first: seq<Name>, order: seq<Name>, queue: seq<Name>, ready: seq<Name>)
    requires first <= order + queue && queue != []
    ensures first <= order + [queue[0]] + (queue[1..] + ready)
  {
    assert order + [queue[0]] + (queue[1..] + ready) == order + queue + ready;
  }

  /** Everything that leads into `v` is done. */
  ghost predicate Unblocked(g: Graph, v: Name, done: set<Name>) {
    forall i :: 0 <= i < |g.conns| && g.conns[i].target == v ==> g.conns[i].source in done
  }

  /** `v` becomes ready when the first `p` blocks of `order` are finished, not earlier. */
  ghost predicate ReadyAt(g: Graph, order: seq<Name>, v: Name, p: nat) {
    && p <= |order| && Unblocked(g, v, Elements(order[..p]))
    && (p > 0 ==> !Unblocked(g, v, Elements(order[..p - 1])))
  }

  ghost predicate DeclaredBefore(g: Graph, u: Name, v: Name) {
    exists x, y :: 0 <= x < y < |g.blocks| && g.blocks[x].name == u && g.blocks[y].name == v
  }

  /** Blocks stand in the order in which `order` makes them ready, and those made ready
      by the same block stand in declaration order. */
  ghost predicate ByReadiness(g: Graph, order: seq<Name>, seen: seq<Name>) {
    forall i, j, p: nat, q: nat ::
      0 <= i < j < |seen| && ReadyAt(g, order, seen[i], p) && ReadyAt(g, order, seen[j], q) ==>
        p < q || (p == q && DeclaredBefore(g, seen[i], seen[j]))
  }

  ghost predicate InDeclarationOrder(g: Graph, s: seq<Name>) {
    forall i, j :: 0 <= i < j < |s| ==> DeclaredBefore(g, s[i], s[j])
  }

  lemma {:induction false} IndexIs(blocks: seq<Node>, name: Name, k: nat)
    requires k < |blocks| && blocks[k].name == name
    ensures IndexFrom(blocks, name) < |blocks| && blocks[IndexFrom(blocks, name)].name == name
  {
    if blocks[0].name != name {
      IndexIs(blocks[1..], name, k - 1);
    }
  }

  lemma {:induction false} IndexDeclares(g: Graph, s: seq<Name>)
    requires SortedByIndex(g, s) && Distinct(s) && Elements(s) <= Elements(Names(g))
    ensures InDeclarationOrder(g, s)
  {
    forall i, j | 0 <= i < j < |s| ensures DeclaredBefore(g, s[i], s[j]) {
      assert s[i] in Elements(s) && s[j] in Elements(s);
      var x :| 0 <= x < |Names(g)| && Names(g)[x] == s[i];
      var y :| 0 <= y < |Names(g)| && Names(g)[y] == s[j];
      IndexIs(g.blocks, s[i], x);
      IndexIs(g.blocks, s[j], y);
      assert g.blocks[BlockIndex(g, s[i])].name == s[i] && g.blocks[BlockIndex(g, s[j])].name == s[j];
    }
  }

  /** Finishing one more block does not change when the blocks seen so far were ready. */
  lemma {:induction false} ReadyEarlier(g: Graph, order: seq<Name>, n: Name, v: Name, p: nat)
    requires ReadyAt(g, order + [n], v, p)
    ensures Unblocked(g, v, Elements(order)) ==> ReadyAt(g, order, v, p)
    ensures !Unblocked(g, v, Elements(order)) ==> p == |order| + 1
  {
    var next := order + [n];
    assert next[..|order|] == order;
    if p <= |order| {
      assert next[..p] == order[..p] && (p > 0 ==> next[..p - 1] == order[..p - 1]);
      assert Elements(order[..p]) <= Elements(order) by {
        assert forall i :: 0 <= i < p ==> order[..p][i] == order[i];
      }
    }
  }

  lemma {:induction false} ReadinessStep(g: Graph, order: seq<Name>, n: Name, seen: seq<Name>, ready: seq<Name>)
    requires ByReadiness(g, order, seen) && InDeclarationOrder(g, ready)
    requires forall i :: 0 <= i < |seen| ==> Unblocked(g, seen[i], Elements(order))
    requires forall i :: 0 <= i < |ready| ==> !Unblocked(g, ready[i], Elements(order))
    ensures ByReadiness(g, order + [n], seen + ready)
  {
    hide Unblocked, DeclaredBefore;
    var all := seen + ready;
    forall i, j, p: nat, q: nat |
      0 <= i < j < |all| && ReadyAt(g, order + [n], all[i], p) && ReadyAt(g, order + [n], all[j], q)
      ensures p < q || (p == q && DeclaredBefore(g, all[i], all[j]))
    {
      ReadyEarlier(g, order, n, all[i], p);
      ReadyEarlier(g, order, n, all[j], q);
      if j < |seen| {
        assert all[i] == seen[i] && all[j] == seen[j];
      } else if i >= |seen| {
        assert all[i] == ready[i - |seen|] && all[j] == ready[j - |seen|];
      } else {
        assert all[i] == seen[i] && all[j] == ready[j - |seen|];
      }
    }
  }

  /** What a round finishes and makes ready keeps the order of readiness. */
  lemma {:induction false} RoundReadiness(
    g: Graph, inDeg: Degrees, order: seq<Name>, n: Name, rest: seq<Name>, inDeg': Degrees, ready: seq<Name>)
    requires Rounds(g, inDeg, order, [n] + rest) && Rounds(g, inDeg', order + [n], rest + ready)
    requires ByReadiness(g, order, order + ([n] + rest)) && SortedByIndex(g, ready)
    ensures ByReadiness(g, order + [n], order + [n] + (rest + ready))
  {
    hide ByReadiness, ReadyAt, Forward, DeclaredBefore, SortedByIndex;
    var seen := order + ([n] + rest);
    assert order + [n] + (rest + ready) == seen + ready;
    ReadyIsNew(g, inDeg, seen, ready);
    IndexDeclares(g, ready);
    forall i | 0 <= i < |seen| ensures Unblocked(g, seen[i], Elements(order)) {
      assert seen[i] in Elements(seen);
      WaitingZero(g.conns, seen[i], Elements(order));
    }
    forall i | 0 <= i < |ready| ensures !Unblocked(g, ready[i], Elements(order)) {
      WaitingZero(g.conns, ready[i], Elements(order));
    }
    ReadinessStep(g, order, n, seen, ready);
  }

  lemma {:induction false} ReadyIsNew(g: Graph, inDeg: Degrees, seen: seq<Name>, ready: seq<Name>)
    requires Distinct(seen + ready) && Elements(seen + ready) <= Elements(Names(g)) == inDeg.Keys
    requires forall v :: v in inDeg ==> (inDeg[v] == 0 <==> v in Elements(seen))
    ensures Distinct(ready) && Elements(ready) <= Elements(Names(g))
    ensures forall i :: 0 <= i < |ready| ==> ready[i] in inDeg && inDeg[ready[i]] != 0
  {
    ElementsAppend(seen, ready);
    var all := seen + ready;
    assert forall i :: 0 <= i < |ready| ==> all[|seen| + i] == ready[i];
    assert forall k :: 0 <= k < |seen| ==> all[k] == seen[k];
    forall i | 0 <= i < |ready| ensures ready[i] in inDeg && inDeg[ready[i]] != 0 {
      assert ready[i] in Elements(ready);
    }
  }

  /** At the start everything ready is ready at once. */
  lemma {:induction false} ReadinessStart(g: Graph, inDeg: Degrees, first: seq<Name>)
    requires Rounds(g, inDeg, [], first) && SortedByIndex(g, first)
    ensures ByReadiness(g, [], [] + first)
  {
    var none: seq<Name> := [];
    assert none + first == first;
    IndexDeclares(g, first);
  }

  /** What stands at position `k` of one order stands there or later in another that
      starts with the same `k` blocks. */
  lemma {:induction false} PlaceLater(a: seq<Name>, b: seq<Name>, k: nat) returns (i: nat)
    requires Distinct(a) && Elements(a) == Elements(b) && k < |a| == |b| && a[..k] == b[..k]
    ensures k <= i < |b| && b[i] == a[k]
  {
    assert forall x :: 0 <= x < k ==> a[x] == a[..k][x] == b[x];
    assert a[k] in Elements(a);
    i :| 0 <= i < |b| && b[i] == a[k];
  }

  /** When the block at position `k` became ready is settled by what stands before it. */
  lemma {:induction false} ReadyBefore(g: Graph, a: seq<Name>, k: nat, v: Name) returns (p: nat)
    requires k <= |a| && Unblocked(g, v, Elements(a[..k]))
    ensures p <= k
    ensures forall b: seq<Name> :: k <= |b| && b[..k] == a[..k] ==> ReadyAt(g, b, v, p)
  {
    p := k;
    while p > 0 && Unblocked(g, v, Elements(a[..p - 1]))
      invariant p <= k && Unblocked(g, v, Elements(a[..p]))
    {
      p := p - 1;
    }
    forall b: seq<Name> | k <= |b| && b[..k] == a[..k] ensures ReadyAt(g, b, v, p) {
      assert b[..p] == b[..k][..p] == a[..p];
      if p > 0 {
        assert b[..p - 1] == b[..k][..p - 1] == a[..p - 1];
      }
    }
  }

  lemma {:induction false} ForwardUnblocks(g: Graph, a: seq<Name>, k: nat)
    requires Forward(g, a) && k < |a|
    ensures Unblocked(g, a[k], Elements(a[..k]))
  {
    forall i | 0 <= i < |g.conns| && g.conns[i].target == a[k] ensures g.conns[i].source in Elements(a[..k]) {
    }
  }

  lemma {:induction false} NoTwoChoices(g: Graph, a: seq<Name>, b: seq<Name>, k: nat, i: nat, j: nat)
    requires WellFormed(g) && Forward(g, a) && Forward(g, b) && ByReadiness(g, a, a) && ByReadiness(g, b, b)
    requires k < |a| && k < |b| && a[..k] == b[..k]
    requires k <= i < |a| && a[i] == b[k] && k <= j < |b| && b[j] == a[k]
    ensures a[k] == b[k]
  {
    hide Unblocked, ReadyAt, DeclaredBefore, Elements, Forward, Distinct;
    if a[k] != b[k] {
      var u, v := a[k], b[k];
      ForwardUnblocks(g, a, k);
      ForwardUnblocks(g, b, k);
      var p := ReadyBefore(g, a, k, u);
      var q := ReadyBefore(g, a, k, v);
      assert ReadyAt(g, a, a[k], p) && ReadyAt(g, a, a[i], q) && ReadyAt(g, b, b[k], q) && ReadyAt(g, b, b[j], p);
      assert DeclaredBefore(g, u, v) && DeclaredBefore(g, v, u);
      DeclaredOnce(g, u, v);
    }
  }

  lemma {:induction false} DeclaredOnce(g: Graph, u: Name, v: Name)
    requires Distinct(Names(g)) && DeclaredBefore(g, u, v)
    ensures !DeclaredBefore(g, v, u)
  {
    var x, y :| 0 <= x < y < |g.blocks| && g.blocks[x].name == u && g.blocks[y].name == v;
    assert Names(g)[x] == u && Names(g)[y] == v;
    assert forall z :: 0 <= z < |g.blocks| ==> Names(g)[z] == g.blocks[z].name;
  }

  /** Readiness and declaration leave no choice: the order is a function of the graph. */
  lemma {:induction false} OrderIsUnique(g: Graph, a: seq<Name>, b: seq<Name>, k: nat)
    requires WellFormed(g) && TopologicalOrder(g, a) && TopologicalOrder(g, b)
    requires ByReadiness(g, a, a) && ByReadiness(g, b, b) && k <= |a|
    ensures |a| == |b| && a[..k] == b[..k]
  {
    DistinctSize(a);
    DistinctSize(b);
    if k > 0 {
      OrderIsUnique(g, a, b, k - 1);
      var i := PlaceLater(a, b, k - 1);
      var j := PlaceLater(b, a, k - 1);
      if a[k - 1] != b[k - 1] {
        NoTwoChoices(g, a, b, k - 1, j, i);
      }
    }
  }

  /** Runs rounds until nothing is ready, newly ready blocks in declaration order. */
  method RunRounds(g: Graph, degrees: Degrees, adj: map<Name, seq<Name>>, first: seq<Name>) returns (order: seq<Name>)
    requires forall i :: 0 <= i < |g.conns| ==> g.conns[i].target in degrees
    requires forall u :: Successors(adj, u) == Targets(g.conns, u)
    ensures first <= order
    ensures WellFormed(g) && Rounds(g, degrees, [], first) ==>
              && (|order| == |g.blocks| <==> Acyclic(g))
              && (|order| == |g.blocks| ==> TopologicalOrder(g, order))
              && (SortedByIndex(g, first) ==> ByReadiness(g, order, order))
  {
    ghost var exact := WellFormed(g) && Rounds(g, degrees, [], first);
    ghost var sorted := exact && SortedByIndex(g, first);
    var inDeg, queue := degrees, first;
    order := [];
    if sorted {
      ReadinessStart(g, inDeg, queue);
    }
    while queue != []
      invariant inDeg.Keys == degrees.Keys
      invariant exact ==> Rounds(g, inDeg, order, queue)
      invariant sorted ==> ByReadiness(g, order, order + queue)
      invariant first <= order + queue
      decreases |Positive(inDeg)| + |queue|
    {
      var inDeg', ready := NextRound(g, inDeg, adj, order, queue);
      ready := Sorted(g, ready);
      PrefixKept(first, order, queue, ready);
      if sorted {
        assert queue == [queue[0]] + queue[1..];
        RoundReadiness(g, inDeg, order, queue[0], queue[1..], inDeg', ready);
      }
      order, queue, inDeg := order + [queue[0]], queue[1..] + ready, inDeg';
    }
    if exact {
      Finished(g, inDeg, order);
    }
    assert order + queue == order;
  }

  /** Block names in topological order, sources first in declaration order, or None.
      On a well-formed graph it succeeds exactly when the graph is acyclic. */
  method TopoOrder(g: Graph) returns (r: Option<seq<Name>>)
    ensures r.Some? ==> |r.value| == |g.blocks|
    ensures WellFormed(g) ==> (r.Some? <==> Acyclic(g))
    ensures WellFormed(g) && r.Some? ==> TopologicalOrder(g, r.value)
    ensures WellFormed(g) && r.Some? ==>
              exists k :: 0 <= k <= |r.value| && Elements(r.value[..k]) == Sources(g) && SortedByIndex(g, r.value[..k])
    ensures WellFormed(g) && r.Some? ==> ByReadiness(g, r.value, r.value)
  {
    var inDeg, adj := CountDegrees(g);
    var queue := InitialQueue(g, inDeg);
    PermutationFacts(SortByIndex(g, queue), queue);
    queue := Sorted(g, queue);
    if WellFormed(g) {
      RoundsStart(g, inDeg, queue);
    }
    var order := RunRounds(g, inDeg, adj, queue);
    assert order[..|queue|] == queue;
    r := if |order| != |g.blocks| then None else Some(order);
  }

  method Sorted(g: Graph, s: seq<Name>) returns (r: seq<Name>)
    ensures r == SortByIndex(g, s) && |r| == |s|
  {
    r := SortByIndex(g, s);
    PermutationFacts(r, s);
  }

  datatype Verdict = Accepted | EmptyId | NoBlocks | EmptyName | DuplicateName | UnknownBlock | SelfLoop
                   | HasCycle | NoSource | NoSink

  /** Collects the block names; stops at the first empty or repeated one. */
  method CollectNames(blocks: seq<Node>) returns (v: Verdict, names: set<Name>)
    ensures v == Accepted || v == EmptyName || v == DuplicateName
    ensures v == Accepted <==> Distinct(Names(Graph(blocks, []))) && "" !in Elements(Names(Graph(blocks, [])))
    ensures v == Accepted ==> names == Elements(Names(Graph(blocks, [])))
  {
    ghost var all := Names(Graph(blocks, []));
    names := {};
    for i := 0 to |blocks|
      invariant names == Elements(all[..i]) && "" !in names && Distinct(all[..i])
    {
      var name := blocks[i].name;
      assert all[i] == name && name in Elements(all) && all[..i + 1] == all[..i] + [name];
      ElementsAppend(all[..i], [name]);
      ElementsOne(name);
      if name == "" {
        return EmptyName, names;
      }
      if name in names {
        return DuplicateName, names;
      }
      assert forall j :: 0 <= j < i ==> all[..i][j] in names;
      names := names + {name};
    }
    assert all[..|blocks|] == all;
    v := Accepted;
  }

  lemma {:induction false} SelfLoopIsCycle(g: Graph, i: nat)
    requires i < |g.conns| && g.conns[i].source == g.conns[i].target
    ensures !Acyclic(g)
  {
    var n := g.conns[i].source;
    assert Edge(g, n, n);
    assert Cycle(g, [n, n]);
  }

  /** Runs the counting form of the algorithm from any enumeration of the ready blocks
      and reports how many blocks were visited. */
  method CountVisited(g: Graph, degrees: Degrees, adj: map<Name, seq<Name>>, first: seq<Name>)
    returns (visited: nat, ghost order: seq<Name>)
    requires WellFormed(g) && Rounds(g, degrees, [], first)
    requires forall u :: Successors(adj, u) == Targets(g.conns, u)
    ensures visited == |g.blocks| <==> Acyclic(g)
    ensures visited == |g.blocks| ==> TopologicalOrder(g, order)
  {
    var inDeg, queue := degrees, first;
    visited, order := 0, [];
    while queue != []
      invariant Rounds(g, inDeg, order, queue) && visited == |order|
      decreases |Positive(inDeg)| + |queue|
    {
      var inDeg', ready := NextRound(g, inDeg, adj, order, queue);
      order := order + [queue[0]];
      visited, queue, inDeg := visited + 1, queue[1..] + ready, inDeg';
    }
    Finished(g, inDeg, order);
  }

  predicate IsSource(g: Graph, v: Name) {
    forall i :: 0 <= i < |g.conns| ==> g.conns[i].target != v
  }

  predicate IsSink(g: Graph, v: Name) {
    forall i :: 0 <= i < |g.conns| ==> g.conns[i].source != v
  }

  /** An acyclic graph with blocks has one nothing leads into and one nothing leaves. */
  lemma {:induction false} SourceAndSink(g: Graph, order: seq<Name>) returns (source: nat, sink: nat)
    requires WellFormed(g) && g.blocks != [] && TopologicalOrder(g, order)
    ensures source < |g.blocks| && IsSource(g, g.blocks[source].name)
    ensures sink < |g.blocks| && IsSink(g, g.blocks[sink].name)
  {
    assert g.blocks[0].name == Names(g)[0] && Names(g)[0] in Elements(order);
    var n := |order| - 1;
    assert order[0] in Elements(order) && order[n] in Elements(order);
    source :| 0 <= source < |g.blocks| && Names(g)[source] == order[0];
    sink :| 0 <= sink < |g.blocks| && Names(g)[sink] == order[n];
    forall i | 0 <= i < |g.conns| ensures g.conns[i].source != order[n] {
      var j :| 0 <= j < |order| && order[j] == g.conns[i].target;
      assert g.conns[i].source in Elements(order[..j]);
    }
  }

  /** The pipeline validator. It accepts exactly the non-empty well-formed acyclic
      graphs; its source and sink checks never fire. */
  method Validate(id: string, g: Graph) returns (v: Verdict)
    ensures v == Accepted <==> id != "" && g.blocks != [] && WellFormed(g) && Acyclic(g)
    ensures v == HasCycle ==> WellFormed(g) && !Acyclic(g)
    ensures v != NoSource && v != NoSink
  {
    if id == "" {
      return EmptyId;
    }
    if g.blocks == [] {
      return NoBlocks;
    }
    var names;
    v, names := CollectNames(g.blocks);
    assert Names(Graph(g.blocks, [])) == Names(g);
    if v != Accepted {
      return;
    }
    for i := 0 to |g.conns|
      invariant forall j :: 0 <= j < i ==> g.conns[j].source in names && g.conns[j].target in names
    {
      var c := g.conns[i];
      if c.source !in names || c.target !in names {
        return UnknownBlock;
      }
      if c.source == c.target {
        SelfLoopIsCycle(g, i);
        return SelfLoop;
      }
    }
    v := ValidateAcyclic(g);
  }

  /** The cycle check of the validator and the source and sink checks after it. */
  method ValidateAcyclic(g: Graph) returns (v: Verdict)
    requires WellFormed(g) && g.blocks != []
    ensures v == if Acyclic(g) then Accepted else HasCycle
  {
    var inDeg, adj := CountDegrees(g);
    var queue := InitialQueue(g, inDeg);
    RoundsStart(g, inDeg, queue);
    var visited, order := CountVisited(g, inDeg, adj, queue);
    if visited != |g.blocks| {
      return HasCycle;
    }
    ghost var source, sink := SourceAndSink(g, order);
    var hasSource := exists b :: 0 <= b < |g.blocks| && IsSource(g, g.blocks[b].name);
    var hasSink := exists b :: 0 <= b < |g.blocks| && IsSink(g, g.blocks[b].name);
    v := if !hasSource then NoSource else if !hasSink then NoSink else Accepted;
  }

  /** The store's own validator: the ready blocks are enumerated in no particular
      order, and a self-loop is just a cycle. It accepts what `Validate` accepts. */
  method ValidateStored(g: Graph) returns (v: Verdict)
    ensures v == Accepted <==> g.blocks != [] && WellFormed(g) && Acyclic(g)
    ensures v == HasCycle ==> WellFormed(g) && !Acyclic(g)
  {
    if g.blocks == [] {
      return NoBlocks;
    }
    var names;
    v, names := CollectNames(g.blocks);
    assert Names(Graph(g.blocks, [])) == Names(g);
    if v != Accepted {
      return;
    }
    for i := 0 to |g.conns|
      invariant forall j :: 0 <= j < i ==> g.conns[j].source in names && g.conns[j].target in names
    {
      if g.conns[i].source !in names || g.conns[i].target !in names {
        return UnknownBlock;
      }
    }
    var inDeg, adj := CountDegrees(g);
    var queue := AnyQueue(names, inDeg);
    RoundsStart(g, inDeg, queue);
    var visited, order := CountVisited(g, inDeg, adj, queue);
    DistinctSize(Names(g));
    v := if visited != |names| then HasCycle else Accepted;
  }

  /** The blocks with degree zero, in some order. */
  method AnyQueue(names: set<Name>, inDeg: Degrees) returns (queue: seq<Name>)
    requires names <= inDeg.Keys
    ensures Distinct(queue) && Elements(queue) == set v | v in names && inDeg[v] == 0
  {
    queue := [];
    var rest := names;
    while rest != {}
      invariant rest <= names && Distinct(queue)
      invariant Elements(queue) == set v | v in names - rest && inDeg[v] == 0
    {
      var name :| name in rest;
      rest := rest - {name};
      if inDeg[name] == 0 {
        ElementsAppend(queue, [name]);
        ElementsOne(name);
        assert forall j :: 0 <= j < |queue| ==> queue[j] in Elements(queue);
        queue := queue + [name];
      }
    }
  }
}
