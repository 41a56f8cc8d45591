/** Interfaces: which are accepted, what they compile to, how a path is matched, and
    minor-version upgrades. */
module SchemaInterface {
  import opened Wrappers
  import opened SchemaPath
  import opened SchemaTrie
  import opened SchemaCompile

  const MAX_MAPPINGS := 1024

  datatype Mapping = Mapping(endpoint: string, attributes: Attributes, policy: nat)

  datatype Kind = Datastream | Properties

  datatype Interface = Interface(
    name: string, major: int, minor: int, kind: Kind, ownership: nat, aggregated: bool, mappings: seq<Mapping>)

  function Segs(m: Mapping): seq<Segment> {
    var p := Parse(m.endpoint);
    if p.Some? then p.value else []
  }

  ghost predicate AllParse(iface: Interface) {
    forall i {:trigger iface.mappings[i]} :: 0 <= i < |iface.mappings| ==> Parse(iface.mappings[i].endpoint).Some?
  }

  ghost predicate Unique(endpoints: seq<seq<Segment>>) {
    forall i, j :: 0 <= i < j < |endpoints| ==> !Overlap(Keys(endpoints[i]), Keys(endpoints[j]))
  }

  predicate SameObjectAttributes(a: Mapping, b: Mapping) {
    var x, y := a.attributes, b.attributes;
    && x.reliability == y.reliability && x.retention == y.retention && x.expiry == y.expiry
    && x.explicitTimestamp == y.explicitTimestamp && a.policy == b.policy && x.ttl == y.ttl
  }

  /** One mapping of an object: the shared prefix, then a literal key. */
  ghost predicate ObjectLevel(first: seq<Segment>, segs: seq<Segment>) {
    && |segs| == |first| && segs != []
    && (forall k :: 0 <= k < |segs| - 1 ==> segs[k] == first[k])
    && !segs[|segs| - 1].param
  }

  ghost predicate ObjectShape(endpoints: seq<seq<Segment>>, mappings: seq<Mapping>)
    requires |endpoints| == |mappings| && endpoints != []
  {
    forall i :: 0 <= i < |endpoints| ==>
      ObjectLevel(endpoints[0], endpoints[i]) &&
      var a, x, b, y := mappings[0], mappings[0].attributes, mappings[i], mappings[i].attributes;
      && a.policy == b.policy && x.reliability == y.reliability && x.retention == y.retention
      && x.expiry == y.expiry && x.ttl == y.ttl && x.explicitTimestamp == y.explicitTimestamp
  }

  function Endpoints(iface: Interface): seq<seq<Segment>> {
    seq(|iface.mappings|, i requires 0 <= i < |iface.mappings| => Segs(iface.mappings[i]))
  }

  /** The structural rules of an interface document. */
  ghost predicate Accepted(iface: Interface) {
    && iface.major >= 0 && iface.minor >= 0 && (iface.major > 0 || iface.minor > 0)
    && !(iface.kind.Properties? && iface.aggregated)
    && 1 <= |iface.mappings| <= 1024
    && AllParse(iface) && Unique(Endpoints(iface))
    && (iface.aggregated ==> ObjectShape(Endpoints(iface), iface.mappings))
  }

  /** The level loop for one pair of endpoints of equal depth. */
  method CompareLevels(a: seq<Segment>, b: seq<Segment>) returns (overlap: bool, identical: bool)
    requires |a| == |b|
    ensures overlap <==> Overlap(Keys(a), Keys(b))
    ensures identical <==> Keys(a) == Keys(b)
  {
    overlap, identical := true, true;
    for k := 0 to |a|
      invariant overlap
      invariant forall i :: 0 <= i < k ==> LevelOverlap(Keys(a)[i], Keys(b)[i])
      invariant identical <==> forall i :: 0 <= i < k ==> Keys(a)[i] == Keys(b)[i]
    {
      if a[k].param && b[k].param {
      } else if a[k].param != b[k].param {
        identical := false;
        assert Keys(a)[k] != Keys(b)[k];
      } else if a[k].literal != b[k].literal {
        overlap, identical := false, false;
      }
      if !overlap {
        assert !LevelOverlap(Keys(a)[k], Keys(b)[k]);
        break;
      }
    }
  }

  datatype Pairs = Fine | Duplicate(i: nat, j: nat) | Conflict(i: nat, j: nat)

  /** Rejects the first pair of endpoints that some path could match alike. */
  method CheckEndpointUniqueness(endpoints: seq<seq<Segment>>) returns (r: Pairs)
    ensures r == Fine <==> Unique(endpoints)
    ensures r.Duplicate? ==> r.i < r.j < |endpoints| && Keys(endpoints[r.i]) == Keys(endpoints[r.j])
    ensures r.Conflict? ==> r.i < r.j < |endpoints| && Overlap(Keys(endpoints[r.i]), Keys(endpoints[r.j])) &&
                            Keys(endpoints[r.i]) != Keys(endpoints[r.j])
  {
    for i := 0 to |endpoints|
      invariant forall x, y :: 0 <= x < i && x < y < |endpoints| ==> !Overlap(Keys(endpoints[x]), Keys(endpoints[y]))
    {
      for j := i + 1 to |endpoints|
        invariant forall y :: i < y < j ==> !Overlap(Keys(endpoints[i]), Keys(endpoints[y]))
      {
        if |endpoints[i]| == |endpoints[j]| {
          var overlap, identical := CompareLevels(endpoints[i], endpoints[j]);
          if identical {
            assert Overlap(Keys(endpoints[i]), Keys(endpoints[j]));
            return Duplicate(i, j);
          }
          if overlap {
            return Conflict(i, j);
          }
        }
      }
    }
    r := Fine;
  }

  method CheckObjectAggregation(endpoints: seq<seq<Segment>>, mappings: seq<Mapping>) returns (ok: bool)
    requires |endpoints| == |mappings| && endpoints != []
    requires forall i :: 0 <= i < |endpoints| ==> endpoints[i] != []
    ensures ok <==> ObjectShape(endpoints, mappings)
  {
    var first, ref := endpoints[0], mappings[0];
    for i := 0 to |endpoints|
      invariant forall x :: 0 <= x < i ==> ObjectLevel(first, endpoints[x]) && SameObjectAttributes(ref, mappings[x])
    {
      var segs, m := endpoints[i], mappings[i];
      if |segs| != |first| {
        assert !ObjectLevel(endpoints[0], endpoints[i]);
        return false;
      }
      for k := 0 to |segs| - 1
        invariant forall x :: 0 <= x < k ==> segs[x] == first[x]
      {
        if segs[k] != first[k] {
          assert !ObjectLevel(endpoints[0], endpoints[i]);
          return false;
        }
      }
      if segs[|segs| - 1].param || !SameObjectAttributes(ref, m) {
        assert !(ObjectLevel(endpoints[0], endpoints[i]) && SameObjectAttributes(mappings[0], mappings[i]));
        return false;
      }
    }
    ok := true;
  }

  lemma {:induction false} ParsedIsNotEmpty(endpoint: string)
    requires Parse(endpoint).Some?
    ensures Parse(endpoint).value != [] && ValidPattern(Keys(Parse(endpoint).value))
  {
    ParsePrints(endpoint);
  }

  /** The structural validation of a document, in its order. */
  method CheckInterface(iface: Interface) returns (ok: bool)
    ensures ok <==> Accepted(iface)
  {
    if iface.major < 0 || iface.minor < 0 || (iface.major == 0 && iface.minor == 0) {
      return false;
    }
    if iface.kind.Properties? && iface.aggregated {
      return false;
    }
    if iface.mappings == [] || |iface.mappings| > MAX_MAPPINGS {
      return false;
    }
    var endpoints := [];
    for i := 0 to |iface.mappings|
      invariant |endpoints| == i
      invariant forall x :: 0 <= x < i ==>
          Parse(iface.mappings[x].endpoint).Some? && endpoints[x] == Segs(iface.mappings[x])
      invariant forall x :: 0 <= x < i ==> endpoints[x] != []
    {
      var segs := SplitEndpoint(iface.mappings[i].endpoint);
      if segs.None? {
        return false;
      }
      ParsedIsNotEmpty(iface.mappings[i].endpoint);
      endpoints := endpoints + [segs.value];
    }
    assert endpoints == Endpoints(iface);
    var pairs := CheckEndpointUniqueness(endpoints);
    if pairs != Fine {
      return false;
    }
    if iface.aggregated {
      ok := CheckObjectAggregation(endpoints, iface.mappings);
      return;
    }
    ok := true;
  }

  /** Storage identifiers: of the interface, and of the endpoints that have one. */
  datatype Ids = Ids(interfaceId: Option<int>, endpointIds: map<string, int>)

  ghost predicate Resolvable(iface: Interface, ids: Option<Ids>) {
    ids.Some? ==> ids.value.interfaceId.Some? &&
                  forall i :: 0 <= i < |iface.mappings| ==> iface.mappings[i].endpoint in ids.value.endpointIds
  }

  /** What compilation demands: every identifier resolves, every endpoint parses, no two
      of them coincide or disagree on a placeholder name, and an object's keys are
      distinct literals. */
  ghost predicate Compiles(iface: Interface, ids: Option<Ids>) {
    && Resolvable(iface, ids) && AllParse(iface) && Coherent(Items(iface, ids))
    && (iface.aggregated ==> LeavesDistinct(Items(iface, ids)))
  }

  function CompiledOf(m: Mapping, ids: Option<Ids>): Compiled {
    Compiled(if ids.Some? && m.endpoint in ids.value.endpointIds
             then ids.value.endpointIds[m.endpoint]
             else 0, m.attributes)
  }

  function ItemOf(m: Mapping, ids: Option<Ids>): Item {
    Item(Segs(m), CompiledOf(m, ids))
  }

  function Items(iface: Interface, ids: Option<Ids>): seq<Item> {
    seq(|iface.mappings|, i requires 0 <= i < |iface.mappings| => ItemOf(iface.mappings[i], ids))
  }

  /** The object key of an endpoint. */
  function Leaf(segs: seq<Segment>): Option<string> {
    if segs == [] || segs[|segs| - 1].param then None else Some(segs[|segs| - 1].literal)
  }

  ghost predicate LeavesDistinct(es: seq<Item>) {
    && (forall i :: 0 <= i < |es| ==> Leaf(es[i].segs).Some?)
    && (forall i, j :: 0 <= i < j < |es| ==> Leaf(es[i].segs) != Leaf(es[j].segs))
  }

  ghost predicate LeafTable(leaves: map<string, Compiled>, es: seq<Item>) {
    && (forall i :: 0 <= i < |es| ==> Leaf(es[i].segs).Some? && Leaf(es[i].segs).value in leaves &&
                                      leaves[Leaf(es[i].segs).value] == es[i].compiled)
    && (forall s {:trigger HasLeaf(es, s)} :: s in leaves ==> HasLeaf(es, s))
  }

  ghost predicate LeafState(iface: Interface, ids: Option<Ids>, i: nat, leaves: map<string, Compiled>)
    requires i <= |iface.mappings|
  {
    if iface.aggregated then LeafTable(leaves, Items(iface, ids)[..i]) else leaves == map[]
  }

  /** Nothing in the first `i` mappings stops compilation. */
  ghost predicate Good(iface: Interface, ids: Option<Ids>, i: nat)
    requires i <= |iface.mappings|
  {
    && (forall x {:trigger iface.mappings[x]} :: 0 <= x < i ==> Parse(iface.mappings[x].endpoint).Some?)
    && (ids.Some? ==> forall x {:trigger iface.mappings[x]} :: 0 <= x < i ==>
        iface.mappings[x].endpoint in ids.value.endpointIds)
    && Coherent(Items(iface, ids)[..i])
    && (iface.aggregated ==> LeavesDistinct(Items(iface, ids)[..i]))
  }

  lemma {:induction false} GoodDown(iface: Interface, ids: Option<Ids>, i: nat, j: nat)
    requires i <= j <= |iface.mappings| && Good(iface, ids, j)
    ensures Good(iface, ids, i)
  {
    var es := Items(iface, ids);
    assert forall x :: 0 <= x < i ==> es[..i][x] == es[..j][x];
  }

  lemma {:induction false} GoodBuilds(iface: Interface, ids: Option<Ids>, i: nat)
    requires i <= |iface.mappings|
    requires forall x {:trigger iface.mappings[x]} :: 0 <= x < i ==> Parse(iface.mappings[x].endpoint).Some?
    ensures Build(Items(iface, ids)[..i]).1 <==> Coherent(Items(iface, ids)[..i])
    ensures Build(Items(iface, ids)[..i]).1 ==> Holds(Build(Items(iface, ids)[..i]).0, Items(iface, ids)[..i])
  {
    var es := Items(iface, ids)[..i];
    forall x | 0 <= x < |es| ensures es[x].segs != [] {
      ParsedIsNotEmpty(iface.mappings[x].endpoint);
    }
    BuildIff(es);
  }

  /** Compilation, mapping by mapping. When it succeeds the trie holds exactly the
      declared endpoints. */
  method Compile(iface: Interface, ids: Option<Ids>)
    returns (ok: bool, trie: EndpointTrie, leaves: map<string, Compiled>)
    ensures fresh(trie) && fresh(trie.repr) && trie.Valid()
    ensures ok <==> Compiles(iface, ids)
    ensures ok ==> Holds(trie.table, Items(iface, ids)) && LeavesOf(iface, ids, leaves)
  {
    hide Compiles, Good, Holds, Done, LeavesOf, EndpointTrie.Mirrored, Shape;
    GoodWhole(iface, ids);
    if ids.Some? && ids.value.interfaceId.None? {
      trie := new EndpointTrie();
      return false, trie, map[];
    }
    ok, trie, leaves := CompileAll(iface, ids);
    if ok {
      DoneWhole(iface, ids, trie.table, leaves);
    }
  }

  /** The key table of a compiled interface: its keys for an object, else none. */
  ghost predicate LeavesOf(iface: Interface, ids: Option<Ids>, leaves: map<string, Compiled>) {
    if iface.aggregated then LeafTable(leaves, Items(iface, ids)) else leaves == map[]
  }

  lemma {:induction false} GoodWhole(iface: Interface, ids: Option<Ids>)
    ensures Compiles(iface, ids) <==>
            (ids.Some? ==> ids.value.interfaceId.Some?) && Good(iface, ids, |iface.mappings|)
  {
    assert Items(iface, ids)[..|iface.mappings|] == Items(iface, ids);
  }

  lemma {:induction false} DoneWhole(iface: Interface, ids: Option<Ids>, table: Table, leaves: map<string, Compiled>)
    requires Done(iface, ids, |iface.mappings|, table, leaves)
    ensures Holds(table, Items(iface, ids)) && LeavesOf(iface, ids, leaves)
  {
    assert Items(iface, ids)[..|iface.mappings|] == Items(iface, ids);
    GoodBuilds(iface, ids, |iface.mappings|);
  }

  /** The state of the loop after `i` mappings. */
  ghost predicate Done(iface: Interface, ids: Option<Ids>, i: nat, table: Table, leaves: map<string, Compiled>)
    requires i <= |iface.mappings|
  {
    Good(iface, ids, i) && table == Build(Items(iface, ids)[..i]).0 && LeafState(iface, ids, i, leaves)
  }

  lemma {:induction false} DoneStarts(iface: Interface, ids: Option<Ids>)
    ensures Done(iface, ids, 0, Empty, map[])
  {
    assert Items(iface, ids)[..0] == [];
  }

  method CompileAll(iface: Interface, ids: Option<Ids>)
    returns (ok: bool, trie: EndpointTrie, leaves: map<string, Compiled>)
    ensures fresh(trie) && fresh(trie.repr) && trie.Valid()
    ensures ok <==> Good(iface, ids, |iface.mappings|)
    ensures ok ==> Done(iface, ids, |iface.mappings|, trie.table, leaves)
  {
    hide Good, LeafState, EndpointTrie.Mirrored, Shape;
    trie := new EndpointTrie();
    leaves := map[];
    DoneStarts(iface, ids);
    for i := 0 to |iface.mappings|
      invariant fresh(trie) && fresh(trie.repr) && trie.Valid()
      invariant Done(iface, ids, i, trie.table, leaves)
    {
      ok, leaves := CompileNext(iface, ids, i, trie, leaves);
      if !ok {
        return;
      }
    }
    ok := true;
  }

  method CompileNext(iface: Interface, ids: Option<Ids>, i: nat, trie: EndpointTrie, leaves: map<string, Compiled>)
    returns (ok: bool, more: map<string, Compiled>)
    requires i < |iface.mappings| && trie.Valid() && Done(iface, ids, i, trie.table, leaves)
    modifies trie, trie.repr
    ensures trie.Valid() && fresh(trie.repr - old(trie.repr))
    ensures ok ==> Done(iface, ids, i + 1, trie.table, more)
    ensures !ok ==> !Good(iface, ids, |iface.mappings|)
  {
    hide Coherent, LeavesDistinct, LeafTable, Build, Parse, EndpointTrie.Mirrored, Shape;
    GoodBuilds(iface, ids, i);
    ok, more := CompileMapping(iface.aggregated, iface.mappings[i], ids, trie, leaves, Items(iface, ids), i);
    GoodStep(iface, ids, i);
    if !ok && Good(iface, ids, |iface.mappings|) {
      GoodDown(iface, ids, i + 1, |iface.mappings|);
    }
  }

  /** One more mapping is good: it resolves, parses, builds, and has a new key. */
  lemma {:induction false} GoodStep(iface: Interface, ids: Option<Ids>, i: nat)
    requires i < |iface.mappings| && Good(iface, ids, i)
    ensures Good(iface, ids, i + 1) <==>
            && Parse(iface.mappings[i].endpoint).Some?
            && (ids.Some? ==> iface.mappings[i].endpoint in ids.value.endpointIds)
            && Build(Items(iface, ids)[..i + 1]).1
            && (iface.aggregated ==> LeavesDistinct(Items(iface, ids)[..i + 1]))
  {
    if Parse(iface.mappings[i].endpoint).Some? {
      GoodBuilds(iface, ids, i + 1);
    }
  }

  method AddItem(trie: EndpointTrie, m: Mapping, ids: Option<Ids>, ghost es: seq<Item>, ghost i: nat) returns (ok: bool)
    requires trie.Valid() && i < |es| && es[i] == ItemOf(m, ids) && (trie.table, true) == Build(es[..i])
    modifies trie, trie.repr
    ensures trie.Valid() && fresh(trie.repr - old(trie.repr))
    ensures ok <==> Parse(m.endpoint).Some? && Build(es[..i + 1]).1
    ensures ok ==> trie.table == Build(es[..i + 1]).0
  {
    BuildNext(es, i);
    ok := trie.Add(m.endpoint, CompiledOf(m, ids));
  }

  /** The loop body: one mapping into the trie and, for an object, the key table. */
  method CompileMapping(
    aggregated: bool, m: Mapping, ids: Option<Ids>, trie: EndpointTrie, leaves: map<string, Compiled>,
    ghost es: seq<Item>, ghost i: nat)
    returns (ok: bool, more: map<string, Compiled>)
    requires trie.Valid() && i < |es| && es[i] == ItemOf(m, ids) && (trie.table, true) == Build(es[..i])
    requires aggregated ==> LeafTable(leaves, es[..i]) && LeavesDistinct(es[..i])
    modifies trie, trie.repr
    ensures trie.Valid() && fresh(trie.repr - old(trie.repr))
    ensures ok <==> && Parse(m.endpoint).Some? && (ids.Some? ==> m.endpoint in ids.value.endpointIds)
                    && Build(es[..i + 1]).1 && (aggregated ==> LeavesDistinct(es[..i + 1]))
    ensures ok ==> trie.table == Build(es[..i + 1]).0
    ensures ok ==> if aggregated then LeafTable(more, es[..i + 1]) else more == leaves
  {
    more := leaves;
    if ids.Some? && m.endpoint !in ids.value.endpointIds {
      return false, more;
    }
    var added := AddLeaf(leaves, ItemOf(m, ids));
    if aggregated {
      LeafNext(leaves, es, i);
      more := if added.Some? then added.value else leaves;
    }
    ok := AddItem(trie, m, ids, es, i);
    ok := ok && (aggregated ==> added.Some?);
  }

  lemma {:induction false} LeafNext(leaves: map<string, Compiled>, es: seq<Item>, i: nat)
    requires i < |es| && LeafTable(leaves, es[..i]) && LeavesDistinct(es[..i])
    ensures AddLeaf(leaves, es[i]).Some? <==> LeavesDistinct(es[..i + 1])
    ensures AddLeaf(leaves, es[i]).Some? ==> LeafTable(AddLeaf(leaves, es[i]).value, es[..i + 1])
  {
    assert es[..i + 1] == es[..i] + [es[i]];
    LeafAdded(leaves, es[..i], es[i]);
  }

  /** The key table with one more key, unless it is a placeholder or taken. */
  function AddLeaf(leaves: map<string, Compiled>, e: Item): Option<map<string, Compiled>> {
    var leaf := Leaf(e.segs);
    if leaf.None? || leaf.value in leaves then None else Some(leaves[leaf.value := e.compiled])
  }

  lemma {:induction false} LeafAdded(leaves: map<string, Compiled>, es: seq<Item>, e: Item)
    requires LeafTable(leaves, es) && LeavesDistinct(es)
    ensures AddLeaf(leaves, e).Some? <==> LeavesDistinct(es + [e])
    ensures AddLeaf(leaves, e).Some? ==> LeafTable(AddLeaf(leaves, e).value, es + [e])
  {
    if Leaf(e.segs).Some? {
      var s := Leaf(e.segs).value;
      assert HasLeaf(es, s) <==> s in leaves;
    }
    LeavesMore(es, e);
    var leaf := Leaf(e.segs);
    if leaf.Some? && leaf.value !in leaves {
      LeafTableMore(leaves, es, e);
    }
  }

  ghost predicate HasLeaf(es: seq<Item>, s: string) {
    exists i :: 0 <= i < |es| && Leaf(es[i].segs) == Some(s)
  }

  lemma {:induction false} LeavesMore(es: seq<Item>, e: Item)
    requires LeavesDistinct(es)
    ensures LeavesDistinct(es + [e]) <==> Leaf(e.segs).Some? && !HasLeaf(es, Leaf(e.segs).value)
  {
    var all := es + [e];
    assert all[|es|] == e && forall i :: 0 <= i < |es| ==> all[i] == es[i];
    if Leaf(e.segs).Some? && HasLeaf(es, Leaf(e.segs).value) {
      var i :| 0 <= i < |es| && Leaf(es[i].segs) == Leaf(e.segs);
      assert Leaf(all[i].segs) == Leaf(all[|es|].segs);
    }
  }

  lemma {:induction false} LeafTableMore(leaves: map<string, Compiled>, es: seq<Item>, e: Item)
    requires LeafTable(leaves, es) && Leaf(e.segs).Some? && Leaf(e.segs).value !in leaves
    ensures LeafTable(leaves[Leaf(e.segs).value := e.compiled], es + [e])
  {
    var all, key := es + [e], Leaf(e.segs).value;
    var more := leaves[key := e.compiled];
    assert all[|es|] == e && forall i :: 0 <= i < |es| ==> all[i] == es[i];
    forall s | s in more ensures HasLeaf(all, s) {
      if s == key {
        assert Leaf(all[|es|].segs) == Some(s);
      } else {
        assert HasLeaf(es, s);
        var i :| 0 <= i < |es| && Leaf(es[i].segs) == Some(s);
        assert Leaf(all[i].segs) == Some(s);
      }
    }
  }

  lemma {:induction false} BuildNext(es: seq<Item>, i: nat)
    requires i < |es| && Build(es[..i]).1
    ensures es[..i + 1] == es[..i] + [es[i]]
    ensures Build(es[..i + 1]) == Insert(Build(es[..i]).0, es[i].segs, es[i].compiled)
  {
    assert es[..i + 1][..i] == es[..i];
  }
}
