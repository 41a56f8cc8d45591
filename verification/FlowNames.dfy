/** When the dotted names made by inlining composites stay unique. */
module FlowNames {
  import opened FlowGraph
  import opened FlowComposite

  ghost function InnerNames(lib: Library, x: Node, stack: set<string>): set<Name>
    requires NodeExpandable(lib, x, stack) && !Resolve(lib, x.blockType).Builtin?
  {
    Elements(NamesIn(FlatNodes(lib, BodyOf(lib, x).blocks, Deeper(lib, x, stack))))
  }

  /** Sibling `y` is itself called like a block inside composite `x`: what follows the
      dot in its name is a block of `x`, or starts one when `y` is a composite too. */
  ghost predicate Clash(lib: Library, x: Node, y: Node, stack: set<string>)
    requires NodeExpandable(lib, x, stack) && NodeExpandable(lib, y, stack)
  {
    !Resolve(lib, x.blockType).Builtin? && x.name + "." <= y.name &&
    var rest := y.name[|x.name| + 1..];
    if Resolve(lib, y.blockType).Builtin? then rest in InnerNames(lib, x, stack)
    else exists z :: z in InnerNames(lib, y, stack) && rest + "." + z in InnerNames(lib, x, stack)
  }

  ghost predicate NodeClear(lib: Library, x: Node, stack: set<string>)
    requires NodeExpandable(lib, x, stack)
    decreases Room(stack), 0
  {
    Resolve(lib, x.blockType).Builtin? || Clear(lib, BodyOf(lib, x).blocks, Deeper(lib, x, stack))
  }

  /** No clash between siblings, at any level. */
  ghost predicate Clear(lib: Library, blocks: seq<Node>, stack: set<string>)
    requires Expandable(lib, blocks, stack)
    decreases Room(stack), 1
  {
    && (forall i :: 0 <= i < |blocks| ==> NodeClear(lib, blocks[i], stack))
    && forall i, j :: 0 <= i < |blocks| && 0 <= j < |blocks| && i != j ==> !Clash(lib, blocks[i], blocks[j], stack)
  }

  ghost function NodeNames(lib: Library, x: Node, stack: set<string>): seq<Name>
    requires NodeExpandable(lib, x, stack)
  {
    NamesIn(FlatNode(lib, x, stack))
  }

  /** Two nodes give rise to the same name. */
  ghost predicate Shared(lib: Library, x: Node, y: Node, stack: set<string>)
    requires NodeExpandable(lib, x, stack) && NodeExpandable(lib, y, stack)
  {
    exists w :: w in Elements(NodeNames(lib, x, stack)) && w in Elements(NodeNames(lib, y, stack))
  }

  lemma {:induction false} NamesOfNode(lib: Library, x: Node, stack: set<string>)
    requires NodeExpandable(lib, x, stack)
    ensures Resolve(lib, x.blockType).Builtin? ==> Elements(NodeNames(lib, x, stack)) == {x.name}
    ensures !Resolve(lib, x.blockType).Builtin? ==>
              forall w :: w in Elements(NodeNames(lib, x, stack)) <==>
                          x.name + "." <= w && w[|x.name| + 1..] in InnerNames(lib, x, stack)
  {
    if Resolve(lib, x.blockType).Builtin? {
      assert NodeNames(lib, x, stack) == [x.name];
      assert forall w :: w in Elements([x.name]) <==> w == [x.name][0];
    } else {
      var p := x.name + ".";
      var inner := NamesIn(FlatNodes(lib, BodyOf(lib, x).blocks, Deeper(lib, x, stack)));
      assert NodeNames(lib, x, stack) == PrefixNames(p, inner);
      PrefixElements(p, inner);
      forall w | p <= w ensures w in Elements(PrefixNames(p, inner)) <==> w[|p|..] in Elements(inner) {
        assert p + w[|p|..] == w;
      }
    }
  }

  lemma {:induction false} ClashIsShared(lib: Library, x: Node, y: Node, stack: set<string>)
    requires NodeExpandable(lib, x, stack) && NodeExpandable(lib, y, stack) && Clash(lib, x, y, stack)
    ensures Shared(lib, x, y, stack)
  {
    NamesOfNode(lib, x, stack);
    NamesOfNode(lib, y, stack);
    var rest := y.name[|x.name| + 1..];
    if Resolve(lib, y.blockType).Builtin? {
      assert y.name in Elements(NodeNames(lib, x, stack));
    } else {
      var z :| z in InnerNames(lib, y, stack) && rest + "." + z in InnerNames(lib, x, stack);
      var w := y.name + "." + z;
      assert w == (y.name + ".") + z && w[|y.name| + 1..] == z;
      assert w == (x.name + ".") + (rest + "." + z) && w[|x.name| + 1..] == rest + "." + z;
      assert w in Elements(NodeNames(lib, x, stack)) && w in Elements(NodeNames(lib, y, stack));
    }
  }

  lemma {:induction false} SharedIsClash(lib: Library, x: Node, y: Node, stack: set<string>)
    requires NodeExpandable(lib, x, stack) && NodeExpandable(lib, y, stack) && Shared(lib, x, y, stack)
    requires x.name != y.name && |x.name| <= |y.name|
    ensures Clash(lib, x, y, stack)
  {
    var w :| w in Elements(NodeNames(lib, x, stack)) && w in Elements(NodeNames(lib, y, stack));
    NamesOfNode(lib, x, stack);
    NamesOfNode(lib, y, stack);
    assert y.name <= w && w[..|y.name|] == y.name;
    if Resolve(lib, x.blockType).Builtin? {
      assert false;
    } else {
      Overlap(x.name, y.name, w);
      if !Resolve(lib, y.blockType).Builtin? {
        var rest := y.name[|x.name| + 1..];
        var z := w[|y.name| + 1..];
        assert w == y.name + "." + z;
        assert w[|x.name| + 1..] == rest + "." + z;
      }
    }
  }

  lemma {:induction false} Overlap(x: Name, y: Name, w: Name)
    requires x + "." <= w && y <= w && x != y && |x| <= |y|
    ensures x + "." <= y
  {
    assert w[..|y|] == y && w[..|x|] == x;
    if |x| == |y| {
      assert false;
    }
    assert (x + ".")[|x|] == '.' && w[|x|] == '.';
    assert y[..|x| + 1] == w[..|x| + 1] == x + ".";
  }

  lemma {:induction false} SharedIffClash(lib: Library, x: Node, y: Node, stack: set<string>)
    requires NodeExpandable(lib, x, stack) && NodeExpandable(lib, y, stack) && x.name != y.name
    ensures Shared(lib, x, y, stack) <==> Clash(lib, x, y, stack) || Clash(lib, y, x, stack)
  {
    if Clash(lib, x, y, stack) { ClashIsShared(lib, x, y, stack); }
    if Clash(lib, y, x, stack) { ClashIsShared(lib, y, x, stack); }
    if Shared(lib, x, y, stack) {
      if |x.name| <= |y.name| { SharedIsClash(lib, x, y, stack); } else { SharedIsClash(lib, y, x, stack); }
    }
  }

  lemma {:induction false} DistinctAppend(a: seq<Name>, b: seq<Name>)
    ensures Distinct(a + b) <==> Distinct(a) && Distinct(b) && Elements(a) !! Elements(b)
  {
    if Distinct(a + b) {
      forall i, j | 0 <= i < j < |a| ensures a[i] != a[j] { assert (a + b)[i] != (a + b)[j]; }
      forall i, j | 0 <= i < j < |b| ensures b[i] != b[j] { assert (a + b)[|a| + i] != (a + b)[|a| + j]; }
      forall i, j | 0 <= i < |a| && 0 <= j < |b| ensures a[i] != b[j] { assert (a + b)[i] != (a + b)[|a| + j]; }
    }
    if Distinct(a) && Distinct(b) && Elements(a) !! Elements(b) {
      forall i, j | 0 <= i < j < |a + b| ensures (a + b)[i] != (a + b)[j] {
        if i < |a| <= j {
          assert a[i] in Elements(a) && b[j - |a|] in Elements(b);
        }
      }
    }
  }

  /** Unique names overall: unique within each node, and none shared by two nodes. */
  ghost predicate Separate(lib: Library, blocks: seq<Node>, stack: set<string>)
    requires Expandable(lib, blocks, stack)
  {
    && (forall i :: 0 <= i < |blocks| ==> Distinct(NodeNames(lib, blocks[i], stack)))
    && forall i, j :: 0 <= i < j < |blocks| ==> !Shared(lib, blocks[i], blocks[j], stack)
  }

  lemma {:induction false} NamesOfBlocks(lib: Library, blocks: seq<Node>, stack: set<string>)
    requires Expandable(lib, blocks, stack)
    ensures forall w :: w in Elements(NamesIn(FlatNodes(lib, blocks, stack))) <==> OneNames(lib, blocks, stack, w)
    ensures Distinct(NamesIn(FlatNodes(lib, blocks, stack))) <==> Separate(lib, blocks, stack)
    decreases |blocks|
  {
    if blocks != [] {
      var n := |blocks| - 1;
      NamesOfBlocks(lib, blocks[..n], stack);
      var a, b := NamesIn(FlatNodes(lib, blocks[..n], stack)), NodeNames(lib, blocks[n], stack);
      NamesInAppend(FlatNodes(lib, blocks[..n], stack), FlatNode(lib, blocks[n], stack));
      DistinctAppend(a, b);
      NamesAppend(lib, blocks, stack, a, b);
      SeparateAppend(lib, blocks, stack, a, b);
    }
  }

  lemma {:induction false} NamesInAppend(a: seq<Node>, b: seq<Node>)
    ensures NamesIn(a + b) == NamesIn(a) + NamesIn(b)
  {
  }

  ghost predicate OneNames(lib: Library, blocks: seq<Node>, stack: set<string>, w: Name)
    requires Expandable(lib, blocks, stack)
  {
    exists i :: 0 <= i < |blocks| && w in Elements(NodeNames(lib, blocks[i], stack))
  }

  lemma {:induction false} NamesAppend(lib: Library, blocks: seq<Node>, stack: set<string>, a: seq<Name>, b: seq<Name>)
    requires Expandable(lib, blocks, stack) && blocks != []
    requires forall w :: w in Elements(a) <==> OneNames(lib, blocks[..|blocks| - 1], stack, w)
    requires b == NodeNames(lib, blocks[|blocks| - 1], stack)
    ensures forall w :: w in Elements(a + b) <==> OneNames(lib, blocks, stack, w)
  {
    var n := |blocks| - 1;
    forall w ensures w in Elements(a + b) <==> OneNames(lib, blocks, stack, w) {
      ElementsAppend(a, b);
      if OneNames(lib, blocks[..n], stack, w) {
        var i :| 0 <= i < n && w in Elements(NodeNames(lib, blocks[..n][i], stack));
        assert w in Elements(NodeNames(lib, blocks[i], stack));
      }
      if OneNames(lib, blocks, stack, w) && w !in Elements(b) {
        var i :| 0 <= i < |blocks| && w in Elements(NodeNames(lib, blocks[i], stack));
        assert w in Elements(NodeNames(lib, blocks[..n][i], stack));
      }
    }
  }

  lemma {:induction false} SeparateAppend(
    lib: Library, blocks: seq<Node>, stack: set<string>, a: seq<Name>, b: seq<Name>)
    requires Expandable(lib, blocks, stack) && blocks != []
    requires forall w :: w in Elements(a) <==> OneNames(lib, blocks[..|blocks| - 1], stack, w)
    requires b == NodeNames(lib, blocks[|blocks| - 1], stack)
    ensures Separate(lib, blocks, stack) <==>
            Separate(lib, blocks[..|blocks| - 1], stack) && Distinct(b) && Elements(a) !! Elements(b)
  {
    var n := |blocks| - 1;
    var front := blocks[..n];
    assert forall i :: 0 <= i < n ==> front[i] == blocks[i];
    if Separate(lib, blocks, stack) {
      forall w | w in Elements(a) ensures w !in Elements(b) {
        assert OneNames(lib, front, stack, w);
        var i :| 0 <= i < n && w in Elements(NodeNames(lib, front[i], stack));
        assert !Shared(lib, blocks[i], blocks[n], stack);
      }
    }
    if Elements(a) !! Elements(b) {
      forall i | 0 <= i < n ensures !Shared(lib, blocks[i], blocks[n], stack) {
        forall w | w in Elements(NodeNames(lib, front[i], stack)) ensures w !in Elements(b) {
          assert OneNames(lib, front, stack, w);
        }
      }
    }
  }

  /** Inlining keeps block names unique exactly when no sibling is named like a block
      inside a composite. */
  lemma {:induction false} NamesUniqueIff(lib: Library, g: Graph, stack: set<string>)
    requires WellFormed(g) && Expandable(lib, g.blocks, stack)
    ensures Distinct(NamesIn(FlatNodes(lib, g.blocks, stack))) <==> Clear(lib, g.blocks, stack)
    decreases Room(stack)
  {
    var blocks := g.blocks;
    NamesOfBlocks(lib, blocks, stack);
    forall i | 0 <= i < |blocks|
      ensures Distinct(NodeNames(lib, blocks[i], stack)) <==> NodeClear(lib, blocks[i], stack)
    {
      assert NodeExpandable(lib, blocks[i], stack);
      if !Resolve(lib, blocks[i].blockType).Builtin? {
        NamesUniqueIff(lib, BodyOf(lib, blocks[i]), Deeper(lib, blocks[i], stack));
        DistinctPrefixed(blocks[i].name + ".",
            FlatNodes(lib, BodyOf(lib, blocks[i]).blocks, Deeper(lib, blocks[i], stack)));
      }
    }
    forall i, j | 0 <= i < j < |blocks|
      ensures Shared(lib, blocks[i], blocks[j], stack) <==>
              Clash(lib, blocks[i], blocks[j], stack) || Clash(lib, blocks[j], blocks[i], stack)
    {
      assert Names(g)[i] != Names(g)[j];
      SharedIffClash(lib, blocks[i], blocks[j], stack);
    }
  }

  lemma {:induction false} DistinctPrefixed(p: Name, nodes: seq<Node>)
    ensures Distinct(NamesIn(PrefixNodes(p, nodes))) <==> Distinct(NamesIn(nodes))
  {
    var a, b := NamesIn(PrefixNodes(p, nodes)), NamesIn(nodes);
    forall i, j | 0 <= i < j < |nodes| ensures a[i] == a[j] <==> b[i] == b[j] {
      PrefixInjective(p, b[i], b[j]);
    }
  }

  /** A composite called "a" with a block "b" beside a plain block called "a.b". */
  lemma {:induction false} DottedNamesCollide() returns (lib: Library, g: Graph)
    ensures WellFormed(g) && Acyclic(g) && Expandable(lib, g.blocks, {})
    ensures !Distinct(NamesIn(FlatNodes(lib, g.blocks, {})))
  {
    var inner := Graph([Node("b", "map", "")], []);
    lib := Library(map["pair" := Composite("pair")], map[("pair", "") := inner]);
    g := Graph([Node("a", "pair", ""), Node("a.b", "map", "")], []);
    NoConnections(inner);
    NoConnections(g);
    assert Names(inner) == ["b"] && Names(g) == ["a", "a.b"];
    assert Opens(lib, g.blocks[0], {});
    assert NodeExpandable(lib, inner.blocks[0], Deeper(lib, g.blocks[0], {}));
    assert Expandable(lib, inner.blocks, Deeper(lib, g.blocks[0], {}));
    assert NodeExpandable(lib, g.blocks[0], {}) && NodeExpandable(lib, g.blocks[1], {});
    NamedLikeInner(lib, g, g.blocks[0], g.blocks[1], inner.blocks[0]);
    assert Clash(lib, g.blocks[0], g.blocks[1], {});
    NamesUniqueIff(lib, g, {});
  }

  lemma {:induction false} NamedLikeInner(lib: Library, g: Graph, x: Node, y: Node, z: Node)
    requires Expandable(lib, g.blocks, {}) && x in g.blocks && y in g.blocks
    requires NodeExpandable(lib, x, {}) && !Resolve(lib, x.blockType).Builtin? && Resolve(lib, y.blockType).Builtin?
    requires BodyOf(lib, x).blocks == [z] && Resolve(lib, z.blockType).Builtin? && y.name == x.name + "." + z.name
    ensures Clash(lib, x, y, {})
  {
    var flat := FlatNodes(lib, BodyOf(lib, x).blocks, Deeper(lib, x, {}));
    var blocks, deeper := BodyOf(lib, x).blocks, Deeper(lib, x, {});
    assert blocks[..|blocks| - 1] == [] && blocks[|blocks| - 1] == z;
    assert FlatNodes(lib, blocks[..|blocks| - 1], deeper) == [] && FlatNode(lib, blocks[|blocks| - 1], deeper) == [z];
    assert flat == [z];
    assert NamesIn(flat)[0] == z.name;
    assert y.name[|x.name| + 1..] == z.name;
  }

  lemma {:induction false} NoConnections(g: Graph)
    requires g.conns == []
    ensures Acyclic(g)
  {
    forall p ensures !Cycle(g, p) {
      assert |p| >= 2 ==> !Edge(g, p[0], p[1]);
    }
  }
}
