/** Inlining user-defined composite blocks into a pipeline. */
module FlowComposite {
  import opened Wrappers
  import opened FlowGraph
  import opened FlowKahn
  import opened FlowSplice

  const MAX_DEPTH := 32

  /** What a block type resolves to. */
  datatype Lookup = Builtin | Composite(name: string) | LookupError

  /** Block types not listed are built in; `bodies` holds the decoded definition of a
      composite for a node configuration, absent when it does not decode. */
  datatype Library = Library(kinds: map<string, Lookup>, bodies: map<(string, string), Graph>)

  function Resolve(lib: Library, blockType: string): Lookup {
    if blockType in lib.kinds then lib.kinds[blockType] else Builtin
  }

  ghost predicate DotFree(x: Name) {
    forall i :: 0 <= i < |x| ==> x[i] != '.'
  }

  ghost predicate DotFreeNames(g: Graph) {
    forall i :: 0 <= i < |g.blocks| ==> DotFree(g.blocks[i].name)
  }

  /** Every composite body declares block names without dots. */
  ghost predicate DotFreeLibrary(lib: Library) {
    forall k :: k in lib.bodies ==> DotFreeNames(lib.bodies[k])
  }

  function PrefixNames(p: Name, names: seq<Name>): seq<Name> {
    seq(|names|, i requires 0 <= i < |names| => p + names[i])
  }

  function PrefixNodes(p: Name, nodes: seq<Node>): seq<Node> {
    seq(|nodes|, i requires 0 <= i < |nodes| => nodes[i].(name := p + nodes[i].name))
  }

  function PrefixConns(p: Name, conns: seq<Connection>): seq<Connection> {
    seq(|conns|, i requires 0 <= i < |conns| =>
      conns[i].(source := p + conns[i].source, target := p + conns[i].target))
  }

  function Prefixed(p: Name, g: Graph): Graph {
    Graph(PrefixNodes(p, g.blocks), PrefixConns(p, g.conns))
  }

  lemma {:induction false} PrefixInjective(p: Name, x: Name, y: Name)
    ensures p + x == p + y ==> x == y
  {
    assert (p + x)[|p|..] == x && (p + y)[|p|..] == y;
  }

  lemma {:induction false} PrefixElements(p: Name, names: seq<Name>)
    ensures forall x :: p + x in Elements(PrefixNames(p, names)) <==> x in Elements(names)
    ensures forall x :: x in Elements(PrefixNames(p, names)) ==> p <= x
    ensures Distinct(names) ==> Distinct(PrefixNames(p, names))
  {
    forall i, j | 0 <= i < j < |names| && names[i] != names[j] ensures p + names[i] != p + names[j] {
      PrefixInjective(p, names[i], names[j]);
    }
    forall x ensures p + x in Elements(PrefixNames(p, names)) <==> x in Elements(names) {
      if p + x in Elements(PrefixNames(p, names)) {
        var i :| 0 <= i < |names| && PrefixNames(p, names)[i] == p + x;
        PrefixInjective(p, names[i], x);
      }
      if x in Elements(names) {
        var i :| 0 <= i < |names| && names[i] == x;
        assert PrefixNames(p, names)[i] == p + x;
      }
    }
  }

  lemma {:induction false} PrefixWellFormed(p: Name, g: Graph)
    requires WellFormed(g) && p != ""
    ensures WellFormed(Prefixed(p, g))
    ensures Names(Prefixed(p, g)) == PrefixNames(p, Names(g))
  {
    assert Names(Prefixed(p, g)) == PrefixNames(p, Names(g));
    PrefixElements(p, Names(g));
  }

  lemma {:induction false} PrefixTopological(p: Name, g: Graph, order: seq<Name>)
    requires WellFormed(g) && TopologicalOrder(g, order)
    ensures TopologicalOrder(Prefixed(p, g), PrefixNames(p, order))
  {
    var h, o := Prefixed(p, g), PrefixNames(p, order);
    PrefixElements(p, order);
    PrefixElements(p, Names(g));
    assert Names(h) == PrefixNames(p, Names(g));
    forall x ensures x in Elements(o) <==> x in Elements(Names(h)) {
      if p <= x { assert x == p + x[|p|..]; }
    }
    forall i | 0 <= i < |h.conns| ensures Before(o, h.conns[i].source, h.conns[i].target) {
      BeforeFromForward(g, order, i);
      var a, b :| 0 <= a < b < |order| && order[a] == g.conns[i].source && order[b] == g.conns[i].target;
      assert o[a] == h.conns[i].source && o[b] == h.conns[i].target;
    }
    ForwardFromBefore(h, o);
  }

  lemma {:induction false} PrefixChain(p: Name, g: Graph, order: seq<Name>)
    requires WellFormed(g) && Chain(g, order)
    ensures Chain(Prefixed(p, g), PrefixNames(p, order))
  {
    var h, o := Prefixed(p, g), PrefixNames(p, order);
    ChainIsTopological(g, order);
    PrefixTopological(p, g, order);
    forall i | 0 <= i < |h.conns| ensures Next(o, h.conns[i].source, h.conns[i].target) {
      assert Next(order, g.conns[i].source, g.conns[i].target);
      var a, b :| 0 <= a < b < |order| && b == a + 1 && order[a] == g.conns[i].source && order[b] == g.conns[i].target;
      assert o[a] == h.conns[i].source && o[b] == h.conns[i].target;
    }
    forall a, b | 0 <= a < b < |o| && b == a + 1 ensures Edge(h, o[a], o[b]) {
      assert Edge(g, order[a], order[b]);
      var c :| 0 <= c < |g.conns| && g.conns[c].source == order[a] && g.conns[c].target == order[b];
      assert h.conns[c].source == o[a] && h.conns[c].target == o[b];
    }
  }

  /** The names a block's part may use: the block's own, or ones under its dot prefix. */
  ghost predicate Owned(n: Name, x: Name) {
    x == n || n + "." <= x
  }

  /** Parts of differently named dot-free blocks cannot share a name. */
  lemma {:induction false} OwnedOnce(m: Name, n: Name, x: Name)
    requires DotFree(m) && DotFree(n) && Owned(m, x) && Owned(n, x)
    ensures m == n
  {
    assert n + "." <= x ==> x[|n|] == '.' && forall i :: 0 <= i < |n| ==> x[i] == n[i];
    assert m + "." <= x ==> x[|m|] == '.' && forall i :: 0 <= i < |m| ==> x[i] == m[i];
  }

  /** How many more levels of composites fit on the expansion stack. */
  function Room(stack: set<string>): nat {
    if |stack| < MAX_DEPTH then MAX_DEPTH - |stack| else 0
  }

  /** A composite node whose body passes every check at this level. */
  ghost predicate Opens(lib: Library, node: Node, stack: set<string>) {
    var l := Resolve(lib, node.blockType);
    l.Composite? && l.name !in stack && |stack| < MAX_DEPTH && (l.name, node.config) in lib.bodies &&
    var body := lib.bodies[(l.name, node.config)];
    body.blocks != [] && WellFormed(body) && Acyclic(body)
  }

  ghost function BodyOf(lib: Library, node: Node): Graph
    requires Resolve(lib, node.blockType).Composite?
    requires (Resolve(lib, node.blockType).name, node.config) in lib.bodies
  {
    lib.bodies[(Resolve(lib, node.blockType).name, node.config)]
  }

  ghost function Deeper(lib: Library, node: Node, stack: set<string>): set<string>
    requires Resolve(lib, node.blockType).Composite?
  {
    stack + {Resolve(lib, node.blockType).name}
  }

  /** Nothing inside the node makes expansion fail: no failing lookup, no composite
      inside itself, no more than MAX_DEPTH levels, and only sound bodies. */
  ghost predicate NodeExpandable(lib: Library, node: Node, stack: set<string>)
    decreases Room(stack), 0
  {
    Resolve(lib, node.blockType).Builtin? ||
    (Opens(lib, node, stack) && Expandable(lib, BodyOf(lib, node).blocks, Deeper(lib, node, stack)))
  }

  ghost predicate Expandable(lib: Library, blocks: seq<Node>, stack: set<string>)
    decreases Room(stack), 1
  {
    forall i :: 0 <= i < |blocks| ==> NodeExpandable(lib, blocks[i], stack)
  }

  /** The nodes that replace one node, in declaration order. */
  ghost function FlatNode(lib: Library, node: Node, stack: set<string>): seq<Node>
    requires NodeExpandable(lib, node, stack)
    decreases Room(stack), 0
  {
    if Resolve(lib, node.blockType).Builtin? then [node]
    else PrefixNodes(node.name + ".", FlatNodes(lib, BodyOf(lib, node).blocks, Deeper(lib, node, stack)))
  }

  ghost function FlatNodes(lib: Library, blocks: seq<Node>, stack: set<string>): seq<Node>
    requires Expandable(lib, blocks, stack)
    decreases Room(stack), 1, |blocks|
  {
    if blocks == [] then []
    else FlatNodes(lib, blocks[..|blocks| - 1], stack) + FlatNode(lib, blocks[|blocks| - 1], stack)
  }

  /** Expansion leaves only built-in blocks, and at least as many as it was given. */
  lemma {:induction false} FlatNodesAreBuiltin(lib: Library, blocks: seq<Node>, stack: set<string>)
    requires Expandable(lib, blocks, stack)
    ensures |FlatNodes(lib, blocks, stack)| >= |blocks|
    ensures forall i :: 0 <= i < |FlatNodes(lib, blocks, stack)| ==>
              Resolve(lib, FlatNodes(lib, blocks, stack)[i].blockType).Builtin?
    decreases Room(stack), 1, |blocks|
  {
    if blocks != [] {
      var n := |blocks| - 1;
      FlatNodesAreBuiltin(lib, blocks[..n], stack);
      if !Resolve(lib, blocks[n].blockType).Builtin? {
        FlatNodesAreBuiltin(lib, BodyOf(lib, blocks[n]).blocks, Deeper(lib, blocks[n], stack));
      }
    }
  }

  /** Composite bodies all the way down are chains. */
  ghost predicate LinearNode(lib: Library, node: Node, stack: set<string>)
    requires NodeExpandable(lib, node, stack)
    decreases Room(stack), 0
  {
    Resolve(lib, node.blockType).Builtin? || Linear(lib, BodyOf(lib, node), Deeper(lib, node, stack))
  }

  ghost predicate IsChain(g: Graph) {
    exists order :: Chain(g, order)
  }

  ghost predicate Linear(lib: Library, g: Graph, stack: set<string>)
    requires Expandable(lib, g.blocks, stack)
    decreases Room(stack), 1
  {
    IsChain(g) && forall i :: 0 <= i < |g.blocks| ==> LinearNode(lib, g.blocks[i], stack)
  }

  ghost function ChainOf(g: Graph): (order: seq<Name>)
    requires IsChain(g)
    ensures Chain(g, order)
  {
    var order :| Chain(g, order); order
  }

  ghost function NodeNamed(g: Graph, name: Name): (node: Node)
    requires name in Elements(Names(g))
    ensures exists i :: 0 <= i < |g.blocks| && g.blocks[i] == node && node.name == name
  {
    var i :| 0 <= i < |Names(g)| && Names(g)[i] == name;
    g.blocks[i]
  }

  /** The stages one node stands for, in processing order. */
  ghost function NodeStages(lib: Library, node: Node, stack: set<string>): seq<Node>
    requires NodeExpandable(lib, node, stack) && LinearNode(lib, node, stack)
    decreases Room(stack), 0
  {
    if Resolve(lib, node.blockType).Builtin? then [node]
    else PrefixNodes(node.name + ".", Stages(lib, BodyOf(lib, node), Deeper(lib, node, stack)))
  }

  /** The stages of a linear pipeline: its chain with each composite replaced in place
      by its prefixed, recursively expanded sub-chain. */
  ghost function Stages(lib: Library, g: Graph, stack: set<string>): seq<Node>
    requires Expandable(lib, g.blocks, stack) && Linear(lib, g, stack)
    decreases Room(stack), 2
  {
    assert forall i :: 0 <= i < |ChainOf(g)| ==> ChainOf(g)[i] in Elements(ChainOf(g));
    FlatStages(ChainOf(g), StageMap(lib, g, stack))
  }

  ghost function StageMap(lib: Library, g: Graph, stack: set<string>): (stages: map<Name, seq<Node>>)
    requires Expandable(lib, g.blocks, stack) && Linear(lib, g, stack)
    ensures stages.Keys == Elements(Names(g))
    decreases Room(stack), 1
  {
    map n | n in Elements(Names(g)) :: NodeStages(lib, NodeNamed(g, n), stack)
  }

  /** The stages of the listed nodes, one after the other. */
  ghost function FlatStages(order: seq<Name>, stages: map<Name, seq<Node>>): seq<Node>
    requires forall i :: 0 <= i < |order| ==> order[i] in stages
  {
    if order == [] then [] else FlatStages(order[..|order| - 1], stages) + stages[order[|order| - 1]]
  }

  /** The graph that replaces one node, and where it is entered and left. */
  datatype Part = Part(graph: Graph, entry: Name, exit: Name)

  datatype ExpandError = ResolveFailed | CompositeCycle | TooDeep | BadBody | EmptyBody | BadGraph | BodyCycle

  datatype Result<+T> = Ok(value: T) | Err(error: ExpandError)

  ghost predicate GoodPart(n: Name, part: Part) {
    && WellFormed(part.graph) && Acyclic(part.graph)
    && part.entry in Elements(Names(part.graph)) && part.exit in Elements(Names(part.graph))
    && forall x :: x in Elements(Names(part.graph)) ==> Owned(n, x)
  }

  /** A linear node's part is the chain of its stages. */
  ghost predicate ChainPart(stages: seq<Node>, part: Part) {
    && stages != [] && Chain(part.graph, Names(Graph(stages, [])))
    && Elements(part.graph.blocks) == Elements(stages)
    && part.entry == stages[0].name && part.exit == stages[|stages| - 1].name
  }

  ghost predicate GoodParts(parts: map<Name, Graph>, entry: map<Name, Name>, exit: map<Name, Name>) {
    && entry.Keys == parts.Keys && exit.Keys == parts.Keys
    && forall n :: n in parts ==> DotFree(n) && GoodPart(n, Part(parts[n], entry[n], exit[n]))
  }

  /** What the expansion loop has built after `k` nodes. */
  ghost predicate Assembled(
    g: Graph, k: nat, parts: map<Name, Graph>, entry: map<Name, Name>, exit: map<Name, Name>,
    nodes: seq<Node>, conns: seq<Connection>, spliced: seq<Connection>)
  {
    && k <= |g.blocks| && parts.Keys == Elements(Names(g)[..k])
    && GoodParts(parts, entry, exit)
    && (forall i :: 0 <= i < k ==> g.blocks[..k][i].name in parts)
    && nodes == SpliceBlocks(g.blocks[..k], parts)
    && spliced == SpliceConns(g.blocks[..k], parts)
    && conns == Retarget(g.conns, entry, exit)
  }

  function RetargetOne(conns: seq<Connection>, n: Name, entry: Name, exit: Name): seq<Connection> {
    seq(|conns|, i requires 0 <= i < |conns| =>
      conns[i].(source := if conns[i].source == n then exit else conns[i].source,
                target := if conns[i].target == n then entry else conns[i].target))
  }

  /** Retargeting one block after the other is retargeting all at once, because no
      entry or exit of an earlier part is named like a later dot-free block. */
  lemma {:induction false} RetargetStep(
    conns: seq<Connection>, parts: map<Name, Graph>, entry: map<Name, Name>, exit: map<Name, Name>, n: Name, part: Part)
    requires n !in parts && DotFree(n) && GoodParts(parts, entry, exit)
    ensures RetargetOne(Retarget(conns, entry, exit), n, part.entry, part.exit) ==
            Retarget(conns, entry[n := part.entry], exit[n := part.exit])
  {
    forall m | m in parts ensures entry[m] != n && exit[m] != n {
      assert GoodPart(m, Part(parts[m], entry[m], exit[m]));
      if Owned(m, n) { OwnedOnce(m, n, n); }
    }
  }

  lemma {:induction false} SpliceFrame(blocks: seq<Node>, parts: map<Name, Graph>, n: Name, part: Graph)
    requires forall i :: 0 <= i < |blocks| ==> blocks[i].name in parts && blocks[i].name != n
    ensures SpliceBlocks(blocks, parts[n := part]) == SpliceBlocks(blocks, parts)
    ensures SpliceConns(blocks, parts[n := part]) == SpliceConns(blocks, parts)
  {
    if blocks != [] {
      SpliceFrame(blocks[..|blocks| - 1], parts, n, part);
    }
  }

  lemma {:induction false} FreshName(g: Graph, k: nat)
    requires WellFormed(g) && k < |g.blocks|
    ensures g.blocks[k].name !in Elements(Names(g)[..k])
    ensures Elements(Names(g)[..k + 1]) == Elements(Names(g)[..k]) + {g.blocks[k].name}
    ensures forall i :: 0 <= i < k ==> g.blocks[..k][i].name in Elements(Names(g)[..k])
  {
    var n, names := g.blocks[k].name, Names(g);
    assert names[k] == n && names[..k + 1] == names[..k] + [n];
    ElementsAppend(names[..k], [n]);
    ElementsOne(n);
    assert forall i :: 0 <= i < k ==> names[..k][i] == g.blocks[..k][i].name;
  }

  lemma {:induction false} SpliceStep(blocks: seq<Node>, k: nat, parts: map<Name, Graph>, part: Graph)
    requires k < |blocks| && blocks[k].name !in parts
    requires forall i :: 0 <= i < k ==> blocks[..k][i].name in parts
    ensures var head, more := blocks[..k + 1], parts[blocks[k].name := part];
            forall i :: 0 <= i < |head| ==> head[i].name in more
    ensures SpliceBlocks(blocks[..k + 1], parts[blocks[k].name := part]) == SpliceBlocks(blocks[..k], parts) +
        part.blocks
    ensures SpliceConns(blocks[..k + 1], parts[blocks[k].name := part]) == SpliceConns(blocks[..k], parts) + part.conns
  {
    SpliceFrame(blocks[..k], parts, blocks[k].name, part);
    assert blocks[..k + 1][..k] == blocks[..k];
    assert forall i :: 0 <= i < k ==> blocks[..k + 1][i] == blocks[..k][i];
  }

  /** One more node. */
  lemma {:induction false} AssembledStep(
    g: Graph, k: nat, parts: map<Name, Graph>, entry: map<Name, Name>, exit: map<Name, Name>,
    nodes: seq<Node>, conns: seq<Connection>, spliced: seq<Connection>, part: Part)
    requires WellFormed(g) && DotFreeNames(g) && k < |g.blocks|
    requires Assembled(g, k, parts, entry, exit, nodes, conns, spliced) && GoodPart(g.blocks[k].name, part)
    ensures var n := g.blocks[k].name;
            n !in parts &&
            Assembled(g, k + 1, parts[n := part.graph], entry[n := part.entry], exit[n := part.exit],
                      nodes + part.graph.blocks, RetargetOne(conns, n, part.entry, part.exit),
                          spliced + part.graph.conns)
  {
    hide SpliceBlocks, SpliceConns, Retarget, RetargetOne, GoodPart, Distinct, Elements, DotFree;
    var n := g.blocks[k].name;
    FreshName(g, k);
    RetargetStep(g.conns, parts, entry, exit, n, part);
    SpliceStep(g.blocks, k, parts, part.graph);
  }

  ghost predicate HasOrder(g: Graph) {
    exists order :: TopologicalOrder(g, order)
  }

  ghost function AnyOrder(g: Graph): (order: seq<Name>)
    requires HasOrder(g)
    ensures TopologicalOrder(g, order)
  {
    var order :| TopologicalOrder(g, order); order
  }

  /** When all nodes are in, the result is the spliced graph, and it is well formed. */
  lemma {:induction false} AssembledAll(
    g: Graph, parts: map<Name, Graph>, entry: map<Name, Name>, exit: map<Name, Name>,
    nodes: seq<Node>, conns: seq<Connection>, spliced: seq<Connection>)
    requires WellFormed(g) && Assembled(g, |g.blocks|, parts, entry, exit, nodes, conns, spliced)
    ensures Spliceable(g, parts, entry, exit)
    ensures Graph(nodes, conns + spliced) == Splice(g, parts, entry, exit)
    ensures WellFormed(Graph(nodes, conns + spliced))
  {
    assert g.blocks[..|g.blocks|] == g.blocks && Names(g)[..|g.blocks|] == Names(g);
    forall m, n | m in parts && n in parts && m != n
      ensures Elements(Names(parts[m])) !! Elements(Names(parts[n]))
    {
      assert GoodPart(m, Part(parts[m], entry[m], exit[m])) && GoodPart(n, Part(parts[n], entry[n], exit[n]));
      forall x | x in Elements(Names(parts[m])) ensures x !in Elements(Names(parts[n])) {
        if Owned(n, x) { OwnedOnce(m, n, x); }
      }
    }
    forall n | n in parts
      ensures WellFormed(parts[n])
      ensures At(entry, n) in Elements(Names(parts[n])) && At(exit, n) in Elements(Names(parts[n]))
    {
      assert GoodPart(n, Part(parts[n], entry[n], exit[n]));
    }
    SpliceWellFormed(g, parts, entry, exit);
  }

  /** Expanding an acyclic graph gives an acyclic graph. */
  lemma {:induction false} SpliceAcyclic(
    g: Graph, parts: map<Name, Graph>, entry: map<Name, Name>, exit: map<Name, Name>)
    requires Spliceable(g, parts, entry, exit) && Acyclic(g)
    requires forall n :: n in parts ==> Acyclic(parts[n])
    ensures Acyclic(Splice(g, parts, entry, exit))
  {
    var order := AcyclicHasOrder(g);
    forall n | n in parts ensures HasOrder(parts[n]) {
      var o := AcyclicHasOrder(parts[n]);
    }
    var orders := map n | n in parts :: AnyOrder(parts[n]);
    SpliceTopological(g, parts, entry, exit, order, orders);
    SpliceWellFormed(g, parts, entry, exit);
    ForwardIsAcyclic(Splice(g, parts, entry, exit), Flat(order, orders));
  }

  lemma {:induction false} NodeNamedIs(g: Graph, i: nat)
    requires WellFormed(g) && i < |g.blocks|
    ensures Names(g)[i] == g.blocks[i].name && g.blocks[i].name in Elements(Names(g))
    ensures NodeNamed(g, g.blocks[i].name) == g.blocks[i]
  {
    assert Names(g)[i] == g.blocks[i].name;
    var node := NodeNamed(g, g.blocks[i].name);
    var j :| 0 <= j < |g.blocks| && g.blocks[j] == node && node.name == g.blocks[i].name;
    assert Names(g)[j] == Names(g)[i];
  }

  function NamesIn(nodes: seq<Node>): seq<Name> {
    Names(Graph(nodes, []))
  }

  ghost function StageNames(stages: map<Name, seq<Node>>): map<Name, seq<Name>> {
    map n | n in stages :: NamesIn(stages[n])
  }

  lemma {:induction false} FlatStageNames(order: seq<Name>, stages: map<Name, seq<Node>>)
    requires forall i :: 0 <= i < |order| ==> order[i] in stages
    ensures NamesIn(FlatStages(order, stages)) == Flat(order, StageNames(stages))
  {
    if order != [] {
      FlatStageNames(order[..|order| - 1], stages);
    }
  }

  lemma {:induction false} FlatStageElements(order: seq<Name>, stages: map<Name, seq<Node>>)
    requires forall i :: 0 <= i < |order| ==> order[i] in stages
    ensures forall x :: x in Elements(FlatStages(order, stages)) <==>
        exists i :: 0 <= i < |order| && x in Elements(stages[order[i]])
  {
    if order != [] {
      var n := |order| - 1;
      FlatStageElements(order[..n], stages);
      ElementsAppend(FlatStages(order[..n], stages), stages[order[n]]);
      assert forall i :: 0 <= i < n ==> order[..n][i] == order[i];
    }
  }

  lemma {:induction false} SpliceBlocksElements(blocks: seq<Node>, parts: map<Name, Graph>)
    requires forall i :: 0 <= i < |blocks| ==> blocks[i].name in parts
    ensures forall x :: x in Elements(SpliceBlocks(blocks, parts)) <==>
              exists i :: 0 <= i < |blocks| && x in Elements(parts[blocks[i].name].blocks)
  {
    if blocks != [] {
      var n := |blocks| - 1;
      SpliceBlocksElements(blocks[..n], parts);
      ElementsAppend(SpliceBlocks(blocks[..n], parts), parts[blocks[n].name].blocks);
      assert forall i :: 0 <= i < n ==> blocks[..n][i] == blocks[i];
    }
  }

  /** Every part is the chain of its node's stages. */
  ghost predicate ChainParts(
    parts: map<Name, Graph>, entry: map<Name, Name>, exit: map<Name, Name>, stages: map<Name, seq<Node>>)
  {
    && entry.Keys == parts.Keys && exit.Keys == parts.Keys && stages.Keys == parts.Keys
    && forall n :: n in parts ==> ChainPart(stages[n], Part(parts[n], entry[n], exit[n]))
  }

  lemma {:induction false} ChainPartsEnds(
    parts: map<Name, Graph>, entry: map<Name, Name>, exit: map<Name, Name>, stages: map<Name, seq<Node>>)
    requires ChainParts(parts, entry, exit, stages)
    ensures Ends(parts, entry, exit, StageNames(stages))
    ensures forall n :: n in parts ==> Chain(parts[n], StageNames(stages)[n])
  {
    forall n | n in parts
      ensures var order := StageNames(stages)[n];
              order != [] && Chain(parts[n], order) && At(entry, n) == order[0] && At(exit, n) == order[|order| - 1]
    {
      assert ChainPart(stages[n], Part(parts[n], entry[n], exit[n]));
    }
  }

  /** A chain of chains expands to the chain of all their stages. */
  lemma {:induction false} SpliceStages(
    g: Graph, order: seq<Name>, parts: map<Name, Graph>, entry: map<Name, Name>, exit: map<Name, Name>,
    stages: map<Name, seq<Node>>)
    requires Chain(g, order) && Spliceable(g, parts, entry, exit) && ChainParts(parts, entry, exit, stages)
    ensures forall i :: 0 <= i < |order| ==> order[i] in stages
    ensures Chain(Splice(g, parts, entry, exit), NamesIn(FlatStages(order, stages)))
  {
    assert forall i :: 0 <= i < |order| ==> order[i] in Elements(order);
    ChainPartsEnds(parts, entry, exit, stages);
    SpliceChain(g, parts, entry, exit, order, StageNames(stages));
    FlatStageNames(order, stages);
  }

  lemma {:induction false} SpliceStageBlocks(
    g: Graph, order: seq<Name>, parts: map<Name, Graph>, stages: map<Name, seq<Node>>)
    requires Elements(order) == Elements(Names(g)) == parts.Keys == stages.Keys
    requires forall n :: n in parts ==> Elements(parts[n].blocks) == Elements(stages[n])
    ensures forall i :: 0 <= i < |order| ==> order[i] in stages
    ensures forall i :: 0 <= i < |g.blocks| ==> g.blocks[i].name in parts
    ensures Elements(SpliceBlocks(g.blocks, parts)) == Elements(FlatStages(order, stages))
  {
    assert forall i :: 0 <= i < |order| ==> order[i] in Elements(order);
    assert forall i :: 0 <= i < |g.blocks| ==> Names(g)[i] == g.blocks[i].name;
    FlatStageElements(order, stages);
    SpliceBlocksElements(g.blocks, parts);
    forall x ensures x in Elements(SpliceBlocks(g.blocks, parts)) <==> x in Elements(FlatStages(order, stages)) {
      if i :| 0 <= i < |g.blocks| && x in Elements(parts[g.blocks[i].name].blocks) {
        var j :| 0 <= j < |order| && order[j] == g.blocks[i].name;
      }
      if j :| 0 <= j < |order| && x in Elements(stages[order[j]]) {
        var i :| 0 <= i < |Names(g)| && Names(g)[i] == order[j];
        assert g.blocks[i].name == order[j];
      }
    }
  }

  /** Unique non-empty names and known connection endpoints. */
  method CheckInnerGraph(g: Graph) returns (ok: bool)
    ensures ok <==> WellFormed(g)
  {
    var v, names := CollectNames(g.blocks);
    assert Names(Graph(g.blocks, [])) == Names(g);
    if v != Accepted {
      return false;
    }
    for i := 0 to |g.conns|
      invariant forall j :: 0 <= j < i ==> g.conns[j].source in names && g.conns[j].target in names
    {
      if g.conns[i].source !in names || g.conns[i].target !in names {
        return false;
      }
    }
    ok := true;
  }

  /** Moves the connections of block `n` to the ends of its part, in place. */
  method MoveEnds(conns: seq<Connection>, n: Name, entry: Name, exit: Name) returns (r: seq<Connection>)
    ensures r == RetargetOne(conns, n, entry, exit)
  {
    r := conns;
    for i := 0 to |conns|
      invariant |r| == |conns|
      invariant forall j :: 0 <= j < |conns| ==>
          r[j] == if j < i then RetargetOne(conns, n, entry, exit)[j] else conns[j]
    {
      if r[i].target == n {
        r := r[i := r[i].(target := entry)];
      }
      if conns[i].source == n {
        r := r[i := r[i].(source := exit)];
      }
    }
  }

  /** Inputs for which the naming scheme is sound. */
  ghost predicate Sound(lib: Library, g: Graph) {
    WellFormed(g) && DotFreeNames(g) && DotFreeLibrary(lib)
  }

  /** Why a node cannot be expanded: the first check it fails, or what makes its body
      fail. */
  ghost predicate NodeFails(lib: Library, node: Node, stack: set<string>, e: ExpandError)
    decreases Room(stack), 0
  {
    match Resolve(lib, node.blockType)
    case Builtin => false
    case LookupError => e == ResolveFailed
    case Composite(c) =>
      if c in stack then e == CompositeCycle
      else if |stack| >= MAX_DEPTH then e == TooDeep
      else if (c, node.config) !in lib.bodies then e == BadBody
      else
        var body := lib.bodies[(c, node.config)];
        if body.blocks == [] then e == EmptyBody
        else if !WellFormed(body) then e == BadGraph
        else if !Acyclic(body) then e == BodyCycle
        else Fails(lib, body.blocks, stack + {c}, e)
  }

  /** The first node that cannot be expanded, in declaration order, says why. */
  ghost predicate Fails(lib: Library, blocks: seq<Node>, stack: set<string>, e: ExpandError)
    decreases Room(stack), 1
  {
    exists i :: 0 <= i < |blocks| && NodeFails(lib, blocks[i], stack, e) && Expandable(lib, blocks[..i], stack)
  }

  /** The graph that replaces one node, or why expansion fails. */
  method ExpandNode(lib: Library, node: Node, stack: set<string>) returns (r: Result<Part>)
    decreases Room(stack), 0
    ensures r.Ok? ==> NodeExpandable(lib, node, stack) && r.value.graph.blocks == FlatNode(lib, node, stack)
    ensures DotFreeLibrary(lib) && NodeExpandable(lib, node, stack) ==> r.Ok?
    ensures DotFreeLibrary(lib) && r.Err? ==> NodeFails(lib, node, stack, r.error)
    ensures r.Ok? && DotFreeLibrary(lib) && node.name != "" ==> GoodPart(node.name, r.value)
    ensures r.Ok? && Resolve(lib, node.blockType).Builtin? ==> r.value.entry == node.name && r.value.exit == node.name
    ensures r.Ok? && DotFreeLibrary(lib) && node.name != "" && LinearNode(lib, node, stack) ==>
              ChainPart(NodeStages(lib, node, stack), r.value)
    ensures node.blockType !in lib.kinds ==> r == Ok(Part(Graph([node], []), node.name, node.name))
    ensures node.blockType in lib.kinds ==>
              match lib.kinds[node.blockType]
              case Builtin => r == Ok(Part(Graph([node], []), node.name, node.name))
              case LookupError => r == Err(ResolveFailed)
              case Composite(c) =>
                if c in stack then r == Err(CompositeCycle)
                else if |stack| >= 32 then r == Err(TooDeep)
                else if (c, node.config) !in lib.bodies then r == Err(BadBody)
                else lib.bodies[(c, node.config)].blocks == [] ==> r == Err(EmptyBody)
  {
    match Resolve(lib, node.blockType)
    case LookupError =>
      return Err(ResolveFailed);
    case Builtin =>
      r := Ok(Part(Graph([node], []), node.name, node.name));
      SingleNode(node);
    case Composite(c) =>
      if c in stack {
        return Err(CompositeCycle);
      }
      if |stack| >= MAX_DEPTH {
        return Err(TooDeep);
      }
      if (c, node.config) !in lib.bodies {
        return Err(BadBody);
      }
      var body := lib.bodies[(c, node.config)];
      if body.blocks == [] {
        return Err(EmptyBody);
      }
      var ok := CheckInnerGraph(body);
      if !ok {
        return Err(BadGraph);
      }
      var order := TopoOrder(body);
      if order.None? {
        return Err(BodyCycle);
      }
      var inner := Expand(lib, body, stack + {c});
      if inner.Err? {
        return Err(inner.error);
      }
      FlatNodesAreBuiltin(lib, body.blocks, stack + {c});
      r := Enclose(node.name, inner.value, StagesIfLinear(lib, body, stack + {c}));
  }

  ghost function StagesIfLinear(lib: Library, g: Graph, stack: set<string>): seq<Node>
    requires Expandable(lib, g.blocks, stack)
  {
    if Linear(lib, g, stack) then Stages(lib, g, stack) else []
  }

  /** Puts an expanded body under the name of its node and finds its first and last
      block. On sound input the second cycle check cannot fail. */
  method Enclose(name: Name, inner: Graph, ghost stages: seq<Node>) returns (r: Result<Part>)
    requires inner.blocks != []
    ensures r.Ok? ==> r.value.graph == Prefixed(name + ".", inner)
    ensures WellFormed(inner) && Acyclic(inner) ==> r.Ok? && GoodPart(name, r.value)
    ensures r.Ok? && WellFormed(inner) && Chain(inner, NamesIn(stages)) &&
            Elements(inner.blocks) == Elements(stages) ==>
              ChainPart(PrefixNodes(name + ".", stages), r.value)
  {
    var exp := Prefixed(name + ".", inner);
    if WellFormed(inner) {
      PrefixWellFormed(name + ".", inner);
      if Acyclic(inner) {
        PrefixAcyclic(name + ".", inner);
      }
    }
    var order := TopoOrder(exp);
    if order.None? {
      return Err(BodyCycle);
    }
    var o := order.value;
    r := Ok(Part(exp, o[0], o[|o| - 1]));
    if WellFormed(inner) {
      assert o[0] in Elements(o) && o[|o| - 1] in Elements(o);
      PrefixElements(name + ".", Names(inner));
      if Chain(inner, NamesIn(stages)) && Elements(inner.blocks) == Elements(stages) {
        PrefixStages(name + ".", inner, stages, o);
      }
    }
  }

  lemma {:induction false} PrefixAcyclic(p: Name, g: Graph)
    requires WellFormed(g) && Acyclic(g) && p != ""
    ensures Acyclic(Prefixed(p, g))
  {
    var order := AcyclicHasOrder(g);
    PrefixTopological(p, g, order);
    PrefixWellFormed(p, g);
    ForwardIsAcyclic(Prefixed(p, g), PrefixNames(p, order));
  }

  lemma {:induction false} PrefixStages(p: Name, g: Graph, stages: seq<Node>, order: seq<Name>)
    requires WellFormed(g) && g.blocks != [] && Chain(g, NamesIn(stages)) && Elements(g.blocks) == Elements(stages)
    requires TopologicalOrder(Prefixed(p, g), order) && order != []
    ensures ChainPart(PrefixNodes(p, stages), Part(Prefixed(p, g), order[0], order[|order| - 1]))
  {
    PrefixChain(p, g, NamesIn(stages));
    assert NamesIn(PrefixNodes(p, stages)) == PrefixNames(p, NamesIn(stages));
    ChainOrderIsUnique(Prefixed(p, g), NamesIn(PrefixNodes(p, stages)), order);
    PrefixSame(p, g.blocks, stages);
    PrefixSame(p, stages, g.blocks);
  }

  lemma {:induction false} PrefixSame(p: Name, a: seq<Node>, b: seq<Node>)
    requires Elements(a) <= Elements(b)
    ensures Elements(PrefixNodes(p, a)) <= Elements(PrefixNodes(p, b))
  {
    forall x | x in Elements(PrefixNodes(p, a)) ensures x in Elements(PrefixNodes(p, b)) {
      var i :| 0 <= i < |a| && PrefixNodes(p, a)[i] == x;
      assert a[i] in Elements(b);
      var j :| 0 <= j < |b| && b[j] == a[i];
      assert PrefixNodes(p, b)[j] == x;
    }
  }

  lemma {:induction false} SingleNode(node: Node)
    ensures Names(Graph([node], [])) == [node.name] && Elements(Names(Graph([node], []))) == {node.name}
    ensures Chain(Graph([node], []), [node.name])
    ensures node.name != "" ==> GoodPart(node.name, Part(Graph([node], []), node.name, node.name))
  {
    var g := Graph([node], []);
    assert Names(g) == [node.name];
    ElementsOne(node.name);
    if node.name != "" {
      ChainIsTopological(g, [node.name]);
      ForwardIsAcyclic(g, [node.name]);
    }
  }

  /** The replacement of every node handled so far. */
  datatype Progress = Progress(
    parts: map<Name, Graph>, entry: map<Name, Name>, exit: map<Name, Name>, stages: map<Name, seq<Node>>)

  ghost predicate LinearPrefix(lib: Library, g: Graph, stack: set<string>, k: nat) {
    k <= |g.blocks| &&
    forall i :: 0 <= i < k ==> NodeExpandable(lib, g.blocks[i], stack) && LinearNode(lib, g.blocks[i], stack)
  }

  /** The state of the expansion loop on sound input. */
  ghost predicate Built(
    lib: Library, g: Graph, stack: set<string>, k: nat, p: Progress,
    nodes: seq<Node>, conns: seq<Connection>, spliced: seq<Connection>)
  {
    && Assembled(g, k, p.parts, p.entry, p.exit, nodes, conns, spliced)
    && (LinearPrefix(lib, g, stack, k) ==>
          && ChainParts(p.parts, p.entry, p.exit, p.stages)
          && forall i :: 0 <= i < k ==>
              g.blocks[i].name in p.stages && p.stages[g.blocks[i].name] == NodeStages(lib, g.blocks[i], stack))
  }

  lemma {:induction false} BuiltStep(
    lib: Library, g: Graph, stack: set<string>, k: nat, p: Progress,
    nodes: seq<Node>, conns: seq<Connection>, spliced: seq<Connection>, part: Part) returns (q: Progress)
    requires Sound(lib, g) && k < |g.blocks| && Built(lib, g, stack, k, p, nodes, conns, spliced)
    requires NodeExpandable(lib, g.blocks[k], stack) && GoodPart(g.blocks[k].name, part)
    requires LinearNode(lib, g.blocks[k], stack) ==> ChainPart(NodeStages(lib, g.blocks[k], stack), part)
    ensures Built(lib, g, stack, k + 1, q, nodes + part.graph.blocks,
                  RetargetOne(conns, g.blocks[k].name, part.entry, part.exit), spliced + part.graph.conns)
  {
    var node := g.blocks[k];
    AssembledStep(g, k, p.parts, p.entry, p.exit, nodes, conns, spliced, part);
    var stages := if LinearNode(lib, node, stack) then NodeStages(lib, node, stack) else [];
    q := Progress(p.parts[node.name := part.graph], p.entry[node.name := part.entry],
                  p.exit[node.name := part.exit], p.stages[node.name := stages]);
    if LinearPrefix(lib, g, stack, k + 1) {
      assert LinearPrefix(lib, g, stack, k);
      ChainPartsStep(p, node.name, part, stages);
      StagesStep(lib, g, stack, k, p.stages);
    }
  }

  lemma {:induction false} ChainPartsStep(p: Progress, n: Name, part: Part, stages: seq<Node>)
    requires ChainParts(p.parts, p.entry, p.exit, p.stages) && n !in p.parts && ChainPart(stages, part)
    ensures ChainParts(p.parts[n := part.graph], p.entry[n := part.entry], p.exit[n := part.exit],
        p.stages[n := stages])
  {
    var parts, entry, exit, all := p.parts[n := part.graph], p.entry[n := part.entry], p.exit[n := part.exit],
        p.stages[n := stages];
    forall m | m in parts ensures ChainPart(all[m], Part(parts[m], entry[m], exit[m])) {
      if m != n { assert ChainPart(p.stages[m], Part(p.parts[m], p.entry[m], p.exit[m])); }
    }
  }

  lemma {:induction false} StagesStep(lib: Library, g: Graph, stack: set<string>, k: nat, stages: map<Name, seq<Node>>)
    requires WellFormed(g) && LinearPrefix(lib, g, stack, k + 1)
    requires forall i :: 0 <= i < k ==>
        g.blocks[i].name in stages && stages[g.blocks[i].name] == NodeStages(lib, g.blocks[i], stack)
    ensures var more := stages[g.blocks[k].name := NodeStages(lib, g.blocks[k], stack)];
            forall i :: 0 <= i < k + 1 ==>
                g.blocks[i].name in more && more[g.blocks[i].name] == NodeStages(lib, g.blocks[i], stack)
  {
    assert forall i :: 0 <= i < |g.blocks| ==> Names(g)[i] == g.blocks[i].name;
  }

  lemma {:induction false} RetargetNothing(conns: seq<Connection>, n: Name)
    ensures RetargetOne(conns, n, n, n) == conns
  {
  }

  lemma {:induction false} BuiltAcyclic(
    g: Graph, p: Progress, nodes: seq<Node>, conns: seq<Connection>, spliced: seq<Connection>)
    requires WellFormed(g) && Assembled(g, |g.blocks|, p.parts, p.entry, p.exit, nodes, conns, spliced)
    ensures WellFormed(Graph(nodes, conns + spliced))
    ensures Acyclic(g) ==> Acyclic(Graph(nodes, conns + spliced))
  {
    AssembledAll(g, p.parts, p.entry, p.exit, nodes, conns, spliced);
    forall n | n in p.parts ensures Acyclic(p.parts[n]) {
      assert GoodPart(n, Part(p.parts[n], p.entry[n], p.exit[n]));
    }
    if Acyclic(g) {
      SpliceAcyclic(g, p.parts, p.entry, p.exit);
    }
  }

  lemma {:induction false} BuiltLinear(
    lib: Library, g: Graph, stack: set<string>, p: Progress,
    nodes: seq<Node>, conns: seq<Connection>, spliced: seq<Connection>)
    requires WellFormed(g) && Built(lib, g, stack, |g.blocks|, p, nodes, conns, spliced)
    requires Expandable(lib, g.blocks, stack) && Linear(lib, g, stack)
    ensures Chain(Graph(nodes, conns + spliced), NamesIn(Stages(lib, g, stack)))
    ensures Elements(nodes) == Elements(Stages(lib, g, stack))
  {
    assert LinearPrefix(lib, g, stack, |g.blocks|);
    AssembledAll(g, p.parts, p.entry, p.exit, nodes, conns, spliced);
    StagesBuilt(lib, g, stack, p);
    ChainedResult(g, ChainOf(g), p, nodes, conns, spliced);
  }

  lemma {:induction false} ChainedResult(
    g: Graph, order: seq<Name>, p: Progress, nodes: seq<Node>, conns: seq<Connection>, spliced: seq<Connection>)
    requires Chain(g, order) && Spliceable(g, p.parts, p.entry, p.exit) &&
        ChainParts(p.parts, p.entry, p.exit, p.stages)
    requires Graph(nodes, conns + spliced) == Splice(g, p.parts, p.entry, p.exit)
    ensures forall i :: 0 <= i < |order| ==> order[i] in p.stages
    ensures Chain(Graph(nodes, conns + spliced), NamesIn(FlatStages(order, p.stages)))
    ensures Elements(nodes) == Elements(FlatStages(order, p.stages))
  {
    SpliceStages(g, order, p.parts, p.entry, p.exit, p.stages);
    forall n | n in p.parts ensures Elements(p.parts[n].blocks) == Elements(p.stages[n]) {
      assert ChainPart(p.stages[n], Part(p.parts[n], p.entry[n], p.exit[n]));
    }
    SpliceStageBlocks(g, order, p.parts, p.stages);
  }

  lemma {:induction false} StagesBuilt(lib: Library, g: Graph, stack: set<string>, p: Progress)
    requires WellFormed(g) && Expandable(lib, g.blocks, stack) && Linear(lib, g, stack)
    requires p.stages.Keys == Elements(Names(g))
    requires forall i :: 0 <= i < |g.blocks| ==>
        g.blocks[i].name in p.stages && p.stages[g.blocks[i].name] == NodeStages(lib, g.blocks[i], stack)
    ensures p.stages == StageMap(lib, g, stack)
  {
    forall n | n in p.stages ensures p.stages[n] == StageMap(lib, g, stack)[n] {
      var i :| 0 <= i < |Names(g)| && Names(g)[i] == n;
      NodeNamedIs(g, i);
    }
  }

  /** Splices every composite of a graph in place, recursively. It fails only where
      `Expandable` does not hold, with the first reason. The result has no composite left; on sound input it
      is well formed, acyclic if the input is, and a linear pipeline becomes the chain
      of its stages. */
  method Expand(lib: Library, g: Graph, stack: set<string>) returns (r: Result<Graph>)
    decreases Room(stack), 3
    ensures r.Ok? ==> Expandable(lib, g.blocks, stack) && r.value.blocks == FlatNodes(lib, g.blocks, stack)
    ensures DotFreeLibrary(lib) && Expandable(lib, g.blocks, stack) ==> r.Ok?
    ensures DotFreeLibrary(lib) && r.Err? ==> Fails(lib, g.blocks, stack, r.error)
    ensures r.Ok? && Sound(lib, g) ==> WellFormed(r.value) && (Acyclic(g) ==> Acyclic(r.value))
    ensures r.Ok? && Sound(lib, g) && Linear(lib, g, stack) ==> Chain(r.value, NamesIn(Stages(lib, g, stack)))
    ensures r.Ok? && Sound(lib, g) && Linear(lib, g, stack) ==>
        Elements(r.value.blocks) == Elements(Stages(lib, g, stack))
  {
    var nodes, conns, spliced, err, p := ExpandBlocks(lib, g, stack);
    if err.Err? {
      return Err(err.error);
    }
    r := Ok(Graph(nodes, conns + spliced));
    if Sound(lib, g) {
      BuiltAcyclic(g, p, nodes, conns, spliced);
      if Linear(lib, g, stack) {
        BuiltLinear(lib, g, stack, p, nodes, conns, spliced);
      }
    }
  }

  /** The loop over the nodes. */
  method ExpandBlocks(lib: Library, g: Graph, stack: set<string>)
    returns (outNodes: seq<Node>, outConns: seq<Connection>, spliced: seq<Connection>, err: Result<()>,
        ghost p: Progress)
    decreases Room(stack), 2
    ensures err.Ok? ==> Expandable(lib, g.blocks, stack) && outNodes == FlatNodes(lib, g.blocks, stack)
    ensures DotFreeLibrary(lib) && Expandable(lib, g.blocks, stack) ==> err.Ok?
    ensures DotFreeLibrary(lib) && err.Err? ==> Fails(lib, g.blocks, stack, err.error)
    ensures err.Ok? && Sound(lib, g) ==> Built(lib, g, stack, |g.blocks|, p, outNodes, outConns, spliced)
  {
    outNodes, outConns, spliced, err := [], g.conns, [], Ok(());
    p := Progress(map[], map[], map[], map[]);
    StartBuilt(lib, g, stack);
    for k := 0 to |g.blocks|
      invariant err.Ok?
      invariant Flattened(lib, g, stack, k, outNodes)
      invariant Sound(lib, g) ==> Built(lib, g, stack, k, p, outNodes, outConns, spliced)
    {
      outNodes, outConns, spliced, err, p := ExpandBlock(lib, g, stack, k, outNodes, outConns, spliced, p);
      if err.Err? {
        return;
      }
    }
    assert g.blocks[..|g.blocks|] == g.blocks;
  }

  /** The first `k` nodes are expanded to `nodes`. */
  ghost predicate Flattened(lib: Library, g: Graph, stack: set<string>, k: nat, nodes: seq<Node>) {
    k <= |g.blocks| && Expandable(lib, g.blocks[..k], stack) && nodes == FlatNodes(lib, g.blocks[..k], stack)
  }

  lemma {:induction false} FlattenedMore(lib: Library, g: Graph, stack: set<string>, k: nat, nodes: seq<Node>)
    requires k < |g.blocks| && Flattened(lib, g, stack, k, nodes) && NodeExpandable(lib, g.blocks[k], stack)
    ensures Flattened(lib, g, stack, k + 1, nodes + FlatNode(lib, g.blocks[k], stack))
  {
    var more := g.blocks[..k + 1];
    assert more[..k] == g.blocks[..k] && more[k] == g.blocks[k];
    forall i | 0 <= i < |more| ensures NodeExpandable(lib, more[i], stack) {
      assert i < k ==> more[i] == g.blocks[..k][i];
    }
  }

  /** The loop body: one node, its connections moved to the ends of what replaces it. */
  method ExpandBlock(
    lib: Library, g: Graph, stack: set<string>, k: nat,
    nodes: seq<Node>, conns: seq<Connection>, spliced: seq<Connection>, ghost p: Progress)
    returns (nodes': seq<Node>, conns': seq<Connection>, spliced': seq<Connection>, err: Result<()>, ghost p': Progress)
    requires k < |g.blocks| && Flattened(lib, g, stack, k, nodes)
    requires Sound(lib, g) ==> Built(lib, g, stack, k, p, nodes, conns, spliced)
    decreases Room(stack), 1
    ensures err.Ok? ==> Flattened(lib, g, stack, k + 1, nodes')
    ensures DotFreeLibrary(lib) && NodeExpandable(lib, g.blocks[k], stack) ==> err.Ok?
    ensures DotFreeLibrary(lib) && err.Err? ==> NodeFails(lib, g.blocks[k], stack, err.error)
    ensures err.Ok? && Sound(lib, g) ==> Built(lib, g, stack, k + 1, p', nodes', conns', spliced')
  {
    nodes', conns', spliced', err, p' := nodes, conns, spliced, Ok(()), p;
    var node := g.blocks[k];
    var part := ExpandNode(lib, node, stack);
    if part.Err? {
      err := Err(part.error);
      return;
    }
    FlattenedMore(lib, g, stack, k, nodes);
    if Sound(lib, g) {
      assert node.name == Names(g)[k];
      p' := BuiltStep(lib, g, stack, k, p, nodes, conns, spliced, part.value);
    }
    if Resolve(lib, node.blockType).Composite? {
      conns' := MoveEnds(conns, node.name, part.value.entry, part.value.exit);
    } else {
      RetargetNothing(conns, node.name);
    }
    nodes' := nodes + part.value.graph.blocks;
    spliced' := spliced + part.value.graph.conns;
  }

  lemma {:induction false} StartBuilt(lib: Library, g: Graph, stack: set<string>)
    ensures Built(lib, g, stack, 0, Progress(map[], map[], map[], map[]), [], g.conns, [])
  {
    assert Names(g)[..0] == [] && Elements(Names(g)[..0]) == {};
    assert Retarget(g.conns, map[], map[]) == g.conns;
  }
}
