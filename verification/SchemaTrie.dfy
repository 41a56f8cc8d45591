/** The endpoint trie: linked nodes updated in place, and a backtracking search. */
module SchemaTrie {
  import opened Wrappers
  import opened SchemaPath

  /** What a compiled mapping keeps of a declared one; durations in seconds. */
  datatype Attributes = Attributes(
    valueType: nat, reliability: nat, retention: nat, expiry: int, explicitTimestamp: bool,
    allowUnset: bool, ttl: int, required: bool, encrypted: bool)

  datatype Compiled = Compiled(endpointId: int, attributes: Attributes)

  /** A trie as a table of its nodes by pattern; `paramName` counts only where there
      is a parametric child. */
  datatype Entry = Entry(paramName: string, mapping: Option<Compiled>)

  type Table = map<Pattern, Entry>

  ghost const Empty: Table := map[[] := Entry("", None)]

  ghost function Parent(p: Pattern): Pattern {
    if p == [] then p else p[..|p| - 1]
  }

  /** Closed under parents. */
  ghost predicate Rooted(t: Table) {
    [] in t && forall p {:trigger Parent(p)} :: p in t && p != [] ==> Parent(p) in t
  }

  /** Follows or creates the child for one level; a parametric child keeps its name. */
  ghost function Step(t: Table, p: Pattern, seg: Segment): (Table, bool)
    requires p in t
  {
    var q := p + [KeyOf(seg)];
    if q in t then (t, !seg.param || t[p].paramName == seg.literal)
    else if seg.param then (t[q := Entry("", None)][p := t[p].(paramName := seg.literal)], true)
    else (t[q := Entry("", None)], true)
  }

  /** The table after the first `k` levels of `segs`, and whether no name clashed. */
  ghost function Grow(t: Table, segs: seq<Segment>, k: nat): (r: (Table, bool))
    requires [] in t && k <= |segs|
    ensures r.1 ==> Keys(segs)[..k] in r.0
  {
    if k == 0 then (t, true) else
      var r := Grow(t, segs, k - 1);
      assert Keys(segs)[..k] == Keys(segs)[..k - 1] + [KeyOf(segs[k - 1])];
      if r.1 then Step(r.0, Keys(segs)[..k - 1], segs[k - 1]) else r
  }

  ghost function Insert(t: Table, segs: seq<Segment>, m: Compiled): (Table, bool)
    requires [] in t
  {
    var r := Grow(t, segs, |segs|);
    var q := Keys(segs);
    assert q[..|segs|] == q;
    if !r.1 || r.0[q].mapping.Some? then (r.0, false) else (r.0[q := r.0[q].(mapping := Some(m))], true)
  }

  /** The search: the literal child first, then the parametric one. */
  ghost function Search(t: Table, p: Pattern, parts: seq<string>): Option<Compiled>
    requires parts != []
    decreases |parts|
  {
    if parts[0] == "" then None else
      var lit := Under(t, p + [Lit(parts[0])], parts);
      if lit.Some? then lit
      else if ValueOk(parts[0]) then Under(t, p + [Any], parts) else None
  }

  ghost function Under(t: Table, q: Pattern, parts: seq<string>): Option<Compiled>
    requires parts != []
    decreases |parts|, 0
  {
    if q !in t then None else if |parts| == 1 then t[q].mapping else Search(t, q, parts[1..])
  }

  lemma {:induction false} MatchesCons(k: Key, q: Pattern, parts: seq<string>)
    requires parts != []
    ensures Matches([k] + q, parts) <==> KeyMatches(k, parts[0]) && Matches(q, parts[1..])
  {
    var kq := [k] + q;
    if Matches(kq, parts) {
      assert kq[0] == k && KeyMatches(kq[0], parts[0]);
      forall i | 0 <= i < |q| ensures KeyMatches(q[i], parts[1..][i]) {
        assert kq[i + 1] == q[i] && KeyMatches(kq[i + 1], parts[i + 1]);
      }
    }
    if KeyMatches(k, parts[0]) && Matches(q, parts[1..]) {
      forall i | 0 <= i < |kq| ensures KeyMatches(kq[i], parts[i]) {
        if i > 0 {
          assert KeyMatches(q[i - 1], parts[1..][i - 1]);
        }
      }
    }
  }

  /** What the search returns is the mapping of a pattern that matches. */
  lemma {:induction false} SearchIsSound(t: Table, p: Pattern, parts: seq<string>) returns (q: Pattern)
    requires parts != [] && Search(t, p, parts).Some?
    ensures p + q in t && t[p + q].mapping == Search(t, p, parts) && Matches(q, parts)
    decreases |parts|
  {
    var k := if Under(t, p + [Lit(parts[0])], parts).Some? then Lit(parts[0]) else Any;
    assert Search(t, p, parts) == Under(t, p + [k], parts) && KeyMatches(k, parts[0]);
    var rest: Pattern := [];
    if |parts| > 1 {
      rest := SearchIsSound(t, p + [k], parts[1..]);
    }
    q := [k] + rest;
    assert p + q == p + [k] + rest;
    assert |parts| == 1 ==> p + q == p + [k];
    MatchesCons(k, rest, parts);
  }

  /** The search never misses: if any pattern in the table matches, it finds one. */
  lemma {:induction false} SearchIsComplete(t: Table, p: Pattern, q: Pattern, parts: seq<string>)
    requires parts != [] && Rooted(t) && p + q in t && t[p + q].mapping.Some? && Matches(q, parts)
    ensures Search(t, p, parts).Some?
    decreases |parts|
  {
    var k, rest := q[0], q[1..];
    assert q == [k] + rest && p + q == p + [k] + rest;
    MatchesCons(k, rest, parts);
    PrefixIn(t, p + [k], rest);
    if |parts| == 1 {
      assert p + [k] + rest == p + [k];
    } else {
      SearchIsComplete(t, p + [k], rest, parts[1..]);
    }
    assert k.Lit? ==> k == Lit(parts[0]);
  }

  lemma {:induction false} PrefixIn(t: Table, p: Pattern, q: Pattern)
    requires Rooted(t) && p + q in t
    ensures p in t
    decreases |q|
  {
    if q == [] {
      assert p + q == p;
    } else {
      assert Parent(p + q) == p + q[..|q| - 1];
      PrefixIn(t, p, q[..|q| - 1]);
    }
  }

  class TrieNode {
    var children: map<string, TrieNode>
    var param: TrieNode?
    var paramName: string
    var mapping: Option<Compiled>
    ghost const place: Pattern

    constructor (ghost at: Pattern)
      ensures children == map[] && param == null && paramName == "" && mapping == None && place == at
    {
      children, param, paramName, mapping, place := map[], null, "", None, at;
    }
  }

  /** The links out of a node. */
  datatype Links = Links(children: map<string, TrieNode>, param: TrieNode?)

  type Nodes = map<Pattern, TrieNode>

  /** The links of the node at `p` are the nodes one level below it. */
  ghost predicate Linked(nodes: Nodes, p: Pattern, links: Links) {
    && (forall s :: s in links.children <==> p + [Lit(s)] in nodes)
    && (forall s :: s in links.children ==> nodes[p + [Lit(s)]] == links.children[s])
    && (links.param != null <==> p + [Any] in nodes)
    && (links.param != null ==> nodes[p + [Any]] == links.param)
  }

  ghost predicate AllLinked(nodes: Nodes, links: map<Pattern, Links>) {
    links.Keys == nodes.Keys && forall p {:trigger Linked(nodes, p, links[p])} :: p in nodes ==>
        Linked(nodes, p, links[p])
  }

  /** Every place but the first is under its parent. */
  ghost predicate Placed(nodes: Nodes) {
    && [] in nodes
    && (forall p {:trigger Parent(p)} :: p in nodes && p != [] ==> Parent(p) in nodes)
  }

  ghost function Linking(links: Links, k: Key, next: TrieNode): Links {
    match k
    case Lit(s) => links.(children := links.children[s := next])
    case Any => links.(param := next)
  }

  lemma {:induction false} PlaceChild(nodes: Nodes, p: Pattern, k: Key, next: TrieNode)
    requires Placed(nodes) && p in nodes
    ensures Placed(nodes[p + [k] := next])
  {
    assert Parent(p + [k]) == p;
  }

  lemma {:induction false} LinkOther(nodes: Nodes, r: Pattern, links: Links, p: Pattern, k: Key, next: TrieNode)
    requires Linked(nodes, r, links) && r != p && p + [k] !in nodes
    ensures Linked(nodes[p + [k] := next], r, links)
  {
    Siblings(r, p);
  }

  lemma {:induction false} LinkParent(nodes: Nodes, p: Pattern, links: Links, k: Key, next: TrieNode)
    requires Linked(nodes, p, links) && p + [k] !in nodes
    ensures Linked(nodes[p + [k] := next], p, Linking(links, k, next))
  {
    Siblings(p, p);
  }

  lemma {:induction false} LinkLeaf(nodes: Nodes, p: Pattern, k: Key, next: TrieNode)
    requires Placed(nodes) && p + [k] !in nodes
    ensures Linked(nodes[p + [k] := next], p + [k], Links(map[], null))
  {
    Leafless(nodes, p + [k]);
  }

  lemma {:induction false} LinkAll(nodes: Nodes, links: map<Pattern, Links>, p: Pattern, k: Key, next: TrieNode)
    requires Placed(nodes) && AllLinked(nodes, links) && p in nodes && p + [k] !in nodes
    ensures AllLinked(nodes[p + [k] := next], links[p := Linking(links[p], k, next)][p + [k] := Links(map[], null)])
  {
    var q := p + [k];
    var more, all := nodes[q := next], links[p := Linking(links[p], k, next)][q := Links(map[], null)];
    forall r | r in more ensures Linked(more, r, all[r]) {
      if r == q {
        LinkLeaf(nodes, p, k, next);
      } else if r == p {
        assert Linked(nodes, p, links[p]);
        LinkParent(nodes, p, links[p], k, next);
      } else {
        assert Linked(nodes, r, links[r]);
        LinkOther(nodes, r, links[r], p, k, next);
      }
    }
  }

  lemma {:induction false} Siblings(r: Pattern, p: Pattern)
    ensures forall k, l :: r + [k] == p + [l] ==> r == p && k == l
  {
    forall k, l | r + [k] == p + [l] ensures r == p && k == l {
      assert (r + [k])[..|r|] == r && (p + [l])[..|p|] == p;
      assert (r + [k])[|r|] == k && (p + [l])[|p|] == l;
    }
  }

  lemma {:induction false} Leafless(nodes: Nodes, q: Pattern)
    requires q !in nodes && Placed(nodes)
    ensures forall k :: q + [k] !in nodes && q + [k] != q
  {
    forall k ensures q + [k] !in nodes && q + [k] != q {
      assert Parent(q + [k]) == q;
    }
  }

  lemma {:induction false} Commute<T>(m: map<Pattern, T>, p: Pattern, x: T, q: Pattern, y: T)
    requires p != q
    ensures m[p := x][q := y] == m[q := y][p := x]
  {
  }

  ghost predicate Shape(nodes: Nodes, links: map<Pattern, Links>, root: TrieNode) {
    Placed(nodes) && nodes[[]] == root && AllLinked(nodes, links)
  }

  lemma {:induction false} ShapeGrows(
    nodes: Nodes, links: map<Pattern, Links>, root: TrieNode, p: Pattern, k: Key, next: TrieNode)
    requires Shape(nodes, links, root) && p in nodes && p + [k] !in nodes
    ensures p != p + [k] && p in links
    ensures Shape(nodes[p + [k] := next], links[p + [k] := Links(map[], null)][p := Linking(links[p], k, next)], root)
  {
    LinkAll(nodes, links, p, k, next);
    PlaceChild(nodes, p, k, next);
    Commute(links, p, Linking(links[p], k, next), p + [k], Links(map[], null));
  }

  /** A trie of linked nodes. `nodes` gives each node its place; `links` and `table` are
      what the nodes hold, as values. */
  class EndpointTrie {
    const root: TrieNode
    ghost var nodes: Nodes
    ghost var links: map<Pattern, Links>
    ghost var table: Table

    ghost var repr: set<TrieNode>

    ghost predicate Mirrors(p: Pattern)
      requires p in nodes && p in links && p in table
      reads this, nodes[p]
    {
      && nodes[p].children == links[p].children && nodes[p].param == links[p].param
      && nodes[p].paramName == table[p].paramName && nodes[p].mapping == table[p].mapping
    }

    /** The nodes hold what `links` and `table` say. */
    ghost predicate Mirrored()
      reads this, repr
    {
      && links.Keys == nodes.Keys && table.Keys == nodes.Keys
      && forall p {:trigger nodes[p]} :: p in nodes ==> nodes[p] in repr && nodes[p].place == p && Mirrors(p)
    }

    ghost predicate Valid()
      reads this, repr
    {
      Mirrored() && Shape(nodes, links, root)
    }

    constructor ()
      ensures Valid() && table == Empty && fresh(repr)
    {
      root := new TrieNode([]);
      new;
      nodes, links, table, repr := map[[] := root], map[[] := Links(map[], null)], Empty, {root};
      assert forall k: Key :: [] + [k] != [];
    }

    /** Allocates the node of a new place. */
    method Place(ghost q: Pattern) returns (next: TrieNode)
      requires Mirrored() && q !in nodes
      modifies this
      ensures Mirrored() && fresh(next) && next.place == q && repr == old(repr) + {next}
      ensures nodes == old(nodes)[q := next] && links == old(links)[q := Links(map[], null)] &&
          table == old(table)[q := Entry("", None)]
    {
      next := new TrieNode(q);
      nodes, links, table, repr := nodes[q := next], links[q := Links(map[], null)], table[q := Entry("", None)],
          repr + {next};
      forall p | p in nodes ensures nodes[p] in repr && nodes[p].place == p && Mirrors(p) {
        if p != q {
          assert nodes[p] == old(nodes)[p] && old(nodes[p] in repr && nodes[p].place == p && Mirrors(p));
        }
      }
    }

    method HookLiteral(node: TrieNode, ghost p: Pattern, s: string, next: TrieNode)
      requires Mirrored() && p in nodes && nodes[p] == node
      modifies `links, node`children
      ensures Mirrored() && nodes == old(nodes) && repr == old(repr) && table == old(table)
      ensures links == old(links)[p := Linking(old(links)[p], Lit(s), next)]
    {
      node.children := node.children[s := next];
      links := links[p := Linking(links[p], Lit(s), next)];
    }

    method HookParam(node: TrieNode, ghost p: Pattern, next: TrieNode)
      requires Mirrored() && p in nodes && nodes[p] == node
      modifies `links, node`param
      ensures Mirrored() && nodes == old(nodes) && repr == old(repr) && table == old(table)
      ensures links == old(links)[p := Linking(old(links)[p], Any, next)]
    {
      node.param := next;
      links := links[p := Linking(links[p], Any, next)];
    }

    method Rename(node: TrieNode, ghost p: Pattern, name: string)
      requires Mirrored() && p in nodes && nodes[p] == node
      modifies `table, node`paramName
      ensures Mirrored() && nodes == old(nodes) && repr == old(repr) && links == old(links)
      ensures table == old(table)[p := old(table)[p].(paramName := name)]
    {
      node.paramName := name;
      table := table[p := table[p].(paramName := name)];
    }

    method AddLiteral(node: TrieNode, ghost p: Pattern, s: string) returns (next: TrieNode)
      requires Valid() && p in nodes && nodes[p] == node && p + [Lit(s)] !in nodes
      modifies this, node
      ensures Valid() && fresh(next) && repr == old(repr) + {next} && nodes == old(nodes)[p + [Lit(s)] := next]
      ensures table == old(table)[p + [Lit(s)] := Entry("", None)]
    {
      next := Place(p + [Lit(s)]);
      ShapeGrows(old(nodes), old(links), root, p, Lit(s), next);
      HookLiteral(node, p, s, next);
    }

    method AddParam(node: TrieNode, ghost p: Pattern, name: string) returns (next: TrieNode)
      requires Valid() && p in nodes && nodes[p] == node && p + [Any] !in nodes
      modifies this, node
      ensures Valid() && fresh(next) && repr == old(repr) + {next} && nodes == old(nodes)[p + [Any] := next]
      ensures table == old(table)[p + [Any] := Entry("", None)][p := old(table)[p].(paramName := name)]
    {
      next := Place(p + [Any]);
      ShapeGrows(old(nodes), old(links), root, p, Any, next);
      HookParam(node, p, next);
      Rename(node, p, name);
    }

    /** One level down, creating the node where it is missing. */
    method Descend(node: TrieNode, ghost p: Pattern, seg: Segment) returns (next: TrieNode, ok: bool)
      requires Valid() && p in nodes && nodes[p] == node
      modifies this, node
      ensures Valid() && (repr == old(repr) || (repr == old(repr) + {next} && fresh(next)))
      ensures (table, ok) == Step(old(table), p, seg)
      ensures ok ==> p + [KeyOf(seg)] in nodes && nodes[p + [KeyOf(seg)]] == next
    {
      BelowNode(p, seg.literal);
      next, ok := node, true;
      if seg.param {
        if node.param == null {
          next := AddParam(node, p, seg.literal);
        } else if node.paramName != seg.literal {
          ok := false;
        } else {
          next := node.param;
        }
      } else if seg.literal in node.children {
        next := node.children[seg.literal];
      } else {
        next := AddLiteral(node, p, seg.literal);
      }
    }

    /** Inserts one endpoint with its mapping, walking down from the root. */
    method Add(endpoint: string, m: Compiled) returns (ok: bool)
      requires Valid()
      modifies this, repr
      ensures Valid() && fresh(repr - old(repr))
      ensures Parse(endpoint).None? ==> !ok && table == old(table)
      ensures Parse(endpoint).Some? ==> (table, ok) == Insert(old(table), Parse(endpoint).value, m)
    {
      var segs := SplitEndpoint(endpoint);
      if segs.None? {
        return false;
      }
      ok := AddAt(segs.value, m);
    }

    method AddAt(segs: seq<Segment>, m: Compiled) returns (ok: bool)
      requires Valid()
      modifies this, repr
      ensures Valid() && fresh(repr - old(repr))
      ensures (table, ok) == Insert(old(table), segs, m)
    {
      hide Shape, EndpointTrie.Mirrored;
      var node;
      ghost var made;
      node, ok, made := Walk(segs);
      if !ok {
        return;
      }
      assert Keys(segs)[..|segs|] == Keys(segs);
      if node.mapping.Some? {
        return false;
      }
      SetMapping(node, Keys(segs), m);
    }

    /** Follows the levels of an endpoint down from the root, creating what is missing. */
    method Walk(segs: seq<Segment>) returns (node: TrieNode, ok: bool, ghost made: set<TrieNode>)
      requires Valid()
      modifies this, repr
      ensures Valid() && repr == old(repr) + made && fresh(made)
      ensures (table, ok) == Grow(old(table), segs, |segs|)
      ensures ok ==> Keys(segs) in nodes && nodes[Keys(segs)] == node && node in repr
      ensures ok ==> Keys(segs) in table && table[Keys(segs)].mapping == node.mapping
    {
      hide Shape, Grow;
      node, ok := root, true;
      made := {};
      ghost var t, mine := table, repr;
      ReachedRoot(segs);
      for k := 0 to |segs|
        invariant Reached(node, t, segs, k) && ok && node in repr
        invariant repr == mine + made && fresh(made)
      {
        ghost var more;
        node, ok, more := StepDown(node, t, segs, k);
        made := made + more;
        if !ok {
          return;
        }
      }
      ReachedEnd(node, t, segs);
    }

    lemma {:induction false} ReachedRoot(segs: seq<Segment>)
      requires Valid()
      ensures Reached(root, table, segs, 0) && root in repr
    {
      assert Keys(segs)[..0] == [];
    }

    lemma {:induction false} ReachedEnd(node: TrieNode, t: Table, segs: seq<Segment>)
      requires Reached(node, t, segs, |segs|)
      ensures Keys(segs) in nodes && nodes[Keys(segs)] == node
      ensures Keys(segs) in table && table[Keys(segs)].mapping == node.mapping
    {
      assert Keys(segs)[..|segs|] == Keys(segs);
    }

    /** After `k` levels the walk stands at `node`. */
    ghost predicate Reached(node: TrieNode, t: Table, segs: seq<Segment>, k: nat)
      reads this, repr
    {
      && Valid() && k <= |segs| && Keys(segs)[..k] in nodes && nodes[Keys(segs)[..k]] == node
      && [] in t && Grow(t, segs, k) == (table, true)
    }

    method StepDown(node: TrieNode, ghost t: Table, segs: seq<Segment>, k: nat)
      returns (next: TrieNode, ok: bool, ghost made: set<TrieNode>)
      requires Reached(node, t, segs, k) && k < |segs|
      modifies this, node
      ensures Valid() && repr == old(repr) + made && fresh(made)
      ensures ok ==> Reached(next, t, segs, k + 1) && next in repr
      ensures !ok ==> Grow(t, segs, |segs|) == (table, false)
    {
      GrowNext(t, segs, k);
      next, ok := Descend(node, Keys(segs)[..k], segs[k]);
      made := if repr == old(repr) then {} else {next};
      if !ok {
        GrowStays(t, segs, k + 1, |segs|);
      }
    }

    method SetMapping(node: TrieNode, ghost p: Pattern, m: Compiled)
      requires Valid() && p in nodes && nodes[p] == node
      modifies `table, node`mapping
      ensures Valid() && table == old(table)[p := old(table)[p].(mapping := Some(m))]
    {
      node.mapping := Some(m);
      table := table[p := table[p].(mapping := Some(m))];
    }

    lemma {:induction false} BelowNode(p: Pattern, s: string)
      requires Valid() && p in nodes
      ensures s in nodes[p].children <==> p + [Lit(s)] in nodes
      ensures s in nodes[p].children ==> nodes[p + [Lit(s)]] == nodes[p].children[s]
      ensures nodes[p].param != null <==> p + [Any] in nodes
      ensures nodes[p].param != null ==> nodes[p + [Any]] == nodes[p].param
    {
      assert Linked(nodes, p, links[p]);
    }

    /** Matches the remaining path from a node, backtracking into the parametric child
        when the literal one dead-ends. */
    method MatchNode(n: TrieNode, ghost p: Pattern, rest: string) returns (m: Option<Compiled>)
      requires Valid() && p in nodes && nodes[p] == n
      ensures m == Search(table, p, Split(rest))
      decreases |rest|, 1
    {
      var i := IndexOf(rest, '/');
      var last := i == |rest|;
      var seg, tail := rest[..i], if last then "" else rest[i + 1..];
      SplitStep(rest);
      assert last ==> seg == rest;
      assert !last ==> Split(rest)[1..] == Split(tail);
      BelowNode(p, seg);
      if seg == "" {
        return None;
      }
      if seg in n.children {
        m := MatchBelow(n.children[seg], p + [Lit(seg)], rest, last, tail);
        if m.Some? {
          return;
        }
      }
      if n.param != null && ValueOk(seg) {
        m := MatchBelow(n.param, p + [Any], rest, last, tail);
        return;
      }
      m := None;
    }

    method MatchBelow(
      child: TrieNode, ghost q: Pattern, ghost rest: string, last: bool, tail: string) returns (m: Option<Compiled>)
      requires Valid() && q in nodes && nodes[q] == child
      requires last <==> |Split(rest)| == 1
      requires !last ==> Split(rest)[1..] == Split(tail) && |tail| < |rest|
      ensures m == Under(table, q, Split(rest))
      decreases |rest|, 0
    {
      if last {
        return child.mapping;
      }
      m := MatchNode(child, q, tail);
    }

    method Match(path: string) returns (m: Option<Compiled>)
      requires Valid()
      ensures m == Lookup(table, path)
    {
      if |path| < 2 || path[0] != '/' {
        return None;
      }
      m := MatchNode(root, [], path[1..]);
    }
  }

  ghost function Lookup(t: Table, path: string): Option<Compiled> {
    if |path| < 2 || path[0] != '/' then None else Search(t, [], Split(path[1..]))
  }

  lemma {:induction false} GrowNext(t: Table, segs: seq<Segment>, k: nat)
    requires [] in t && k < |segs| && Grow(t, segs, k).1
    ensures Keys(segs)[..k + 1] == Keys(segs)[..k] + [KeyOf(segs[k])]
    ensures Grow(t, segs, k + 1) == Step(Grow(t, segs, k).0, Keys(segs)[..k], segs[k])
  {
  }

  lemma {:induction false} GrowStays(t: Table, segs: seq<Segment>, j: nat, k: nat)
    requires [] in t && j <= k <= |segs| && !Grow(t, segs, j).1
    ensures Grow(t, segs, k) == Grow(t, segs, j)
    decreases k
  {
    if j < k {
      GrowStays(t, segs, j, k - 1);
    }
  }
}
