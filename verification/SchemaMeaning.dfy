/** What a compiled interface answers, and what a minor upgrade keeps. */
module SchemaMeaning {
  import opened Wrappers
  import opened SchemaPath
  import opened SchemaTrie
  import opened SchemaCompile
  import opened SchemaInterface

  /** No two endpoints overlap, and all are well formed. */
  ghost predicate Separate(es: seq<Item>) {
    && (forall i {:trigger es[i]} :: 0 <= i < |es| ==> es[i].segs != [] && ValidPattern(Keys(es[i].segs)))
    && (forall i, j :: 0 <= i < j < |es| ==> !Overlap(Keys(es[i].segs), Keys(es[j].segs)))
  }

  /** The reference answer: look through the declared endpoints one by one. */
  ghost function Scan(es: seq<Item>, path: string): Option<Compiled> {
    if es == [] then None
    else if MatchesPath(Keys(es[|es| - 1].segs), path) then Some(es[|es| - 1].compiled)
    else Scan(es[..|es| - 1], path)
  }

  lemma {:induction false} ScanFinds(es: seq<Item>, path: string, i: nat)
    requires Separate(es) && i < |es| && MatchesPath(Keys(es[i].segs), path)
    ensures Scan(es, path) == Some(es[i].compiled)
    decreases |es|
  {
    var n := |es| - 1;
    if i < n {
      AmbiguousIff(Keys(es[i].segs), Keys(es[n].segs));
      assert Ambiguous(Keys(es[i].segs), Keys(es[n].segs)) || !MatchesPath(Keys(es[n].segs), path);
      assert forall k :: 0 <= k < n ==> es[..n][k] == es[k];
      ScanFinds(es[..n], path, i);
    }
  }

  lemma {:induction false} ScanSome(es: seq<Item>, path: string) returns (i: nat)
    requires Scan(es, path).Some?
    ensures i < |es| && MatchesPath(Keys(es[i].segs), path) && Scan(es, path) == Some(es[i].compiled)
    decreases |es|
  {
    i := |es| - 1;
    if !MatchesPath(Keys(es[i].segs), path) {
      i := ScanSome(es[..i], path);
    }
  }

  /** For every path, the trie's backtracking search gives the linear scan's answer: it
      matches exactly when some declared endpoint does, that endpoint is the only one,
      and the mapping is its own. */
  lemma {:induction false} LookupIsScan(t: Table, es: seq<Item>, path: string)
    requires Holds(t, es) && Separate(es)
    ensures Lookup(t, path) == Scan(es, path)
  {
    HoldsRooted(t, es);
    if Lookup(t, path).Some? {
      var q := SearchIsSound(t, [], Split(path[1..]));
      assert [] + q == q;
      assert Declared(es, q);
      var i :| 0 <= i < |es| && Keys(es[i].segs) == q;
      assert Stored(t, es[i]);
      ScanFinds(es, path, i);
    } else if Scan(es, path).Some? {
      var i := ScanSome(es, path);
      assert Stored(t, es[i]);
      assert [] + Keys(es[i].segs) == Keys(es[i].segs);
      SearchIsComplete(t, [], Keys(es[i].segs), Split(path[1..]));
    }
  }

  /** The same endpoints declared in another order match alike. */
  lemma {:induction false} OrderIsIrrelevant(t: Table, es: seq<Item>, u: Table, fs: seq<Item>, path: string)
    requires Holds(t, es) && Holds(u, fs) && Separate(es) && Separate(fs)
    requires forall e :: e in es <==> e in fs
    ensures Lookup(t, path) == Lookup(u, path)
  {
    LookupIsScan(t, es, path);
    LookupIsScan(u, fs, path);
    if Scan(es, path).Some? {
      var i := ScanSome(es, path);
      assert es[i] in fs;
      var j :| 0 <= j < |fs| && fs[j] == es[i];
      ScanFinds(fs, path, j);
    } else if Scan(fs, path).Some? {
      var i := ScanSome(fs, path);
      assert fs[i] in es;
      var j :| 0 <= j < |es| && es[j] == fs[i];
      ScanFinds(es, path, j);
    }
  }

  lemma {:induction false} AcceptedIsSeparate(iface: Interface, ids: Option<Ids>)
    requires Accepted(iface)
    ensures Separate(Items(iface, ids))
  {
    var es := Items(iface, ids);
    forall i | 0 <= i < |es| ensures es[i].segs != [] && ValidPattern(Keys(es[i].segs)) {
      ParsedIsNotEmpty(iface.mappings[i].endpoint);
    }
    forall i, j | 0 <= i < j < |es| ensures !Overlap(Keys(es[i].segs), Keys(es[j].segs)) {
      assert Endpoints(iface)[i] == es[i].segs && Endpoints(iface)[j] == es[j].segs;
    }
  }

  ghost predicate NamesAgree(es: seq<Item>) {
    forall i, j :: 0 <= i < j < |es| ==> !Clash(es[i].segs, es[j].segs)
  }

  /** An accepted interface compiles, given its identifiers, exactly when no two
      endpoints that agree up to some level name the placeholder there differently:
      only then can all of them be added to one trie. */
  lemma {:induction false} AcceptedCompilesIff(iface: Interface, ids: Option<Ids>)
    requires Accepted(iface)
    ensures Build(Items(iface, ids)).1 <==> NamesAgree(Items(iface, ids))
    ensures Compiles(iface, ids) <==> Resolvable(iface, ids) && NamesAgree(Items(iface, ids))
  {
    var es := Items(iface, ids);
    AcceptedIsSeparate(iface, ids);
    forall i, j | 0 <= i < j < |es| ensures Keys(es[i].segs) != Keys(es[j].segs) {
      assert !Overlap(Keys(es[i].segs), Keys(es[j].segs));
      SameOverlaps(Keys(es[i].segs));
    }
    BuildIff(es);
    if iface.aggregated {
      ObjectsCompile(iface, ids);
    }
  }

  lemma {:induction false} SameOverlaps(p: Pattern)
    ensures Overlap(p, p)
  {
  }

  lemma {:induction false} TwoEndpoints(iface: Interface, x: seq<Segment>, y: seq<Segment>)
    requires |iface.mappings| == 2 && !iface.aggregated && iface.major > 0 && iface.minor >= 0
    requires Parse(iface.mappings[0].endpoint) == Some(x) && Parse(iface.mappings[1].endpoint) == Some(y)
    requires !Overlap(Keys(x), Keys(y)) && Clash(x, y)
    ensures Accepted(iface) && !Compiles(iface, None)
  {
    assert Endpoints(iface) == [x, y];
    var es := Items(iface, None);
    assert es[0].segs == x && es[1].segs == y;
    assert Clash(es[0].segs, es[1].segs);
  }

  ghost function TwoLevels(name: string, leaf: string): seq<Segment> {
    [Segment(name, true), Segment(leaf, false)]
  }

  lemma {:induction false} TwoLevelsParse(name: string, leaf: string)
    requires Identifier(name) && Identifier(leaf)
    ensures Parse(Print(TwoLevels(name, leaf))) == Some(TwoLevels(name, leaf))
  {
    PrintParses(TwoLevels(name, leaf));
  }

  lemma {:induction false} TwoLevelsClash(a: string, x: string, b: string, y: string)
    requires a != b && x != y
    ensures var p, q := TwoLevels(a, x), TwoLevels(b, y); !Overlap(Keys(p), Keys(q)) && Clash(p, q)
  {
    var p, q := TwoLevels(a, x), TwoLevels(b, y);
    assert !LevelOverlap(Keys(p)[1], Keys(q)[1]);
    assert Keys(p)[..0] == Keys(q)[..0];
    assert ClashAt(p, q, 0);
  }

  /** Accepted interfaces that do not compile: any two placeholder names side by side, as
      in "/%{a}/x" and "/%{b}/y". */
  lemma {:induction false} RenamedPlaceholderDoesNotCompile(m: Attributes, a: string, x: string, b: string, y: string)
    returns (iface: Interface)
    requires Identifier(a) && Identifier(x) && Identifier(b) && Identifier(y) && a != b && x != y
    ensures Accepted(iface) && !Compiles(iface, None)
  {
    var p, q := Print(TwoLevels(a, x)), Print(TwoLevels(b, y));
    iface := Interface("i", 1, 0, Datastream, 0, false, [Mapping(p, m, 0), Mapping(q, m, 0)]);
    TwoLevelsParse(a, x);
    TwoLevelsParse(b, y);
    TwoLevelsClash(a, x, b, y);
    TwoEndpoints(iface, TwoLevels(a, x), TwoLevels(b, y));
  }

  lemma {:induction false} ObjectsNeverClash(first: seq<Segment>, a: seq<Segment>, b: seq<Segment>)
    requires ObjectLevel(first, a) && ObjectLevel(first, b)
    ensures !Clash(a, b)
    ensures Leaf(a).Some? && Leaf(b).Some? && (Leaf(a) == Leaf(b) ==> Keys(a) == Keys(b))
  {
    forall k: nat ensures !ClashAt(a, b, k) {
      assert k < |a| - 1 ==> a[k] == first[k] == b[k];
    }
    if Leaf(a) == Leaf(b) {
      assert forall k :: 0 <= k < |a| - 1 ==> a[k] == first[k] == b[k];
      assert Keys(a) == Keys(b);
    }
  }

  /** A concrete path fills in an endpoint: the literals as declared, and for each
      placeholder up to 256 bytes without a wildcard. */
  ghost predicate Fills(segs: seq<Segment>, levels: seq<string>) {
    |levels| == |segs| && forall k {:trigger levels[k]} :: 0 <= k < |segs| ==>
      levels[k] != "" && Free(levels[k], '/') &&
      if segs[k].param then |levels[k]| <= 256 && Free(levels[k], '+') && Free(levels[k], '#')
      else levels[k] == segs[k].literal
  }

  lemma {:induction false} FillsIsMatch(segs: seq<Segment>, levels: seq<string>)
    requires segs != [] && forall k :: 0 <= k < |levels| ==> Free(levels[k], '/')
    ensures MatchesPath(Keys(segs), "/" + Join(levels)) && levels != [] <==> Fills(segs, levels)
  {
    var path := "/" + Join(levels);
    assert path[1..] == Join(levels);
    if levels != [] {
      SplitJoin(levels);
      forall k | 0 <= k < |segs| && k < |levels|
        ensures KeyMatches(Keys(segs)[k], levels[k]) <==>
                levels[k] != "" &&
                if segs[k].param then |levels[k]| <= 256 && Free(levels[k], '+') && Free(levels[k], '#')
                else levels[k] == segs[k].literal
      {
      }
      if Fills(segs, levels) {
        JoinIsLong(levels);
      }
    }
  }

  lemma {:induction false} JoinIsLong(levels: seq<string>)
    requires levels != [] && levels[0] != ""
    ensures |Join(levels)| >= 1
  {
  }

  /** What a path of a compiled interface matches: filling in an endpoint gives exactly
      the attributes declared for it and the identifier it resolved to, or zero without
      identifiers. */
  lemma {:induction false} MatchGivesMapping(
    iface: Interface, ids: Option<Ids>, t: Table, i: nat, segs: seq<Segment>, levels: seq<string>)
    requires Accepted(iface) && Resolvable(iface, ids) && Holds(t, Items(iface, ids))
    requires i < |iface.mappings| && Parse(iface.mappings[i].endpoint) == Some(segs) && Fills(segs, levels)
    ensures ids.Some? ==> iface.mappings[i].endpoint in ids.value.endpointIds
    ensures Lookup(t, "/" + Join(levels)) ==
            Some(Compiled(if ids.None? then 0 else ids.value.endpointIds[iface.mappings[i].endpoint],
                          iface.mappings[i].attributes))
  {
    var es, path := Items(iface, ids), "/" + Join(levels);
    ParsedIsNotEmpty(iface.mappings[i].endpoint);
    FillsIsMatch(segs, levels);
    AcceptedIsSeparate(iface, ids);
    LookupIsScan(t, es, path);
    assert es[i].segs == segs;
    ScanFinds(es, path, i);
  }

  /** And nothing else matches: an answer always comes from filling in some endpoint. */
  lemma {:induction false} MatchComesFrom(iface: Interface, ids: Option<Ids>, t: Table, path: string)
    returns (i: nat, levels: seq<string>)
    requires Accepted(iface) && Holds(t, Items(iface, ids)) && Lookup(t, path).Some?
    ensures i < |iface.mappings| && path == "/" + Join(levels)
    ensures Parse(iface.mappings[i].endpoint).Some? && Fills(Parse(iface.mappings[i].endpoint).value, levels)
  {
    var es := Items(iface, ids);
    AcceptedIsSeparate(iface, ids);
    LookupIsScan(t, es, path);
    i := ScanSome(es, path);
    levels := Split(path[1..]);
    JoinSplit(path[1..]);
    assert path == "/" + path[1..];
    ParsedIsNotEmpty(iface.mappings[i].endpoint);
    FillsIsMatch(es[i].segs, levels);
  }

  /** The key table of a compiled object: each last level with the attributes declared
      for it and its identifier, and no other key. */
  lemma {:induction false} LeafGivesMapping(iface: Interface, ids: Option<Ids>, leaves: map<string, Compiled>, i: nat)
    requires Accepted(iface) && iface.aggregated && Resolvable(iface, ids) && LeavesOf(iface, ids, leaves)
    requires i < |iface.mappings|
    ensures ids.Some? ==> iface.mappings[i].endpoint in ids.value.endpointIds
    ensures var segs := Parse(iface.mappings[i].endpoint).value;
            && segs != [] && segs[|segs| - 1].literal in leaves
            && leaves[segs[|segs| - 1].literal] ==
               Compiled(if ids.None? then 0 else ids.value.endpointIds[iface.mappings[i].endpoint],
                        iface.mappings[i].attributes)
    ensures forall key :: key in leaves ==>
              exists j :: 0 <= j < |iface.mappings| && Leaf(Segs(iface.mappings[j])) == Some(key)
  {
    var es := Items(iface, ids);
    assert es[i].segs == Parse(iface.mappings[i].endpoint).value;
    ParsedIsNotEmpty(iface.mappings[i].endpoint);
    forall key | key in leaves
      ensures exists j :: 0 <= j < |iface.mappings| && Leaf(Segs(iface.mappings[j])) == Some(key)
    {
      assert HasLeaf(es, key);
      var j :| 0 <= j < |es| && Leaf(es[j].segs) == Some(key);
      assert Leaf(Segs(iface.mappings[j])) == Some(key);
    }
  }

  /** Object-aggregated interfaces always compile, given their identifiers. */
  lemma {:induction false} ObjectsCompile(iface: Interface, ids: Option<Ids>)
    requires Accepted(iface) && iface.aggregated
    ensures Coherent(Items(iface, ids)) && LeavesDistinct(Items(iface, ids))
    ensures Compiles(iface, ids) <==> Resolvable(iface, ids)
  {
    var es := Items(iface, ids);
    var ends := Endpoints(iface);
    AcceptedIsSeparate(iface, ids);
    assert forall i :: 0 <= i < |es| ==> es[i].segs == ends[i];
    forall i, j | 0 <= i < j < |es|
      ensures !Clash(es[i].segs, es[j].segs) && Keys(es[i].segs) != Keys(es[j].segs) &&
          Leaf(es[i].segs) != Leaf(es[j].segs)
    {
      assert ObjectLevel(ends[0], ends[i]) && ObjectLevel(ends[0], ends[j]);
      ObjectsNeverClash(ends[0], ends[i], ends[j]);
      assert !Overlap(Keys(es[i].segs), Keys(es[j].segs));
      SameOverlaps(Keys(es[i].segs));
    }
    forall i | 0 <= i < |es| ensures Leaf(es[i].segs).Some? {
      assert ObjectLevel(ends[0], ends[i]);
      ObjectsNeverClash(ends[0], ends[i], ends[i]);
    }
  }

  lemma {:induction false} SplitLast(x: string, leaf: string)
    requires Free(leaf, '/')
    ensures Split(x + "/" + leaf) == Split(x) + [leaf]
    decreases |x|
  {
    var i := IndexOf(x, '/');
    WholeLeaf(leaf);
    SplitStep(x);
    if i == |x| {
      SplitHead(x, leaf);
    } else {
      var rest := x[i + 1..] + "/" + leaf;
      SplitLast(x[i + 1..], leaf);
      CutAt(x, i, leaf);
      SplitHead(x[..i], rest);
      ConsSnoc(x[..i], Split(x[i + 1..]), leaf);
    }
  }

  lemma {:induction false} WholeLeaf(leaf: string)
    requires Free(leaf, '/')
    ensures Split(leaf) == [leaf]
  {
    assert IndexOf(leaf, '/') == |leaf|;
  }

  lemma {:induction false} ConsSnoc(h: string, parts: seq<string>, l: string)
    ensures [h] + (parts + [l]) == [h] + parts + [l]
  {
  }

  lemma {:induction false} CutAt(x: string, i: nat, leaf: string)
    requires i < |x| && x[i] == '/'
    ensures x + "/" + leaf == x[..i] + "/" + (x[i + 1..] + "/" + leaf)
  {
    assert x == x[..i] + "/" + x[i + 1..];
  }

  lemma {:induction false} MatchesSnoc(p: Pattern, k: Key, parts: seq<string>, x: string)
    ensures Matches(p + [k], parts + [x]) <==> Matches(p, parts) && KeyMatches(k, x)
  {
    var q, all := p + [k], parts + [x];
    if Matches(q, all) {
      assert q[|p|] == k && all[|p|] == x && KeyMatches(q[|p|], all[|p|]);
      forall i | 0 <= i < |p| ensures KeyMatches(p[i], parts[i]) {
        assert KeyMatches(q[i], all[i]);
      }
    }
  }

  /** A publish path for an object: the shared prefix of its endpoints, filled in. */
  ghost predicate DeclaredPrefix(first: seq<Segment>, prefix: string)
    requires first != []
  {
    || (prefix == "" && |first| == 1)
    || (prefix != "" && prefix[0] == '/' && Matches(Keys(first)[..|first| - 1], Split(prefix[1..])))
  }

  lemma {:induction false} ObjectKeys(first: seq<Segment>, segs: seq<Segment>)
    requires ObjectLevel(first, segs)
    ensures Leaf(segs).Some? && Keys(segs) == Keys(first)[..|first| - 1] + [Lit(Leaf(segs).value)]
  {
  }

  lemma {:induction false} ObjectPathMatches(first: seq<Segment>, segs: seq<Segment>, prefix: string, leaf: string)
    requires ObjectLevel(first, segs) && Identifier(leaf)
    ensures Leaf(segs).Some?
    ensures MatchesPath(Keys(segs), prefix + "/" + leaf) <==> DeclaredPrefix(first, prefix) && Leaf(segs).value == leaf
  {
    IdentifierIsClean(leaf);
    ObjectKeys(first, segs);
    var path := prefix + "/" + leaf;
    var front, k := Keys(first)[..|first| - 1], Lit(Leaf(segs).value);
    if prefix == "" {
      assert path[1..] == leaf && Split(leaf) == [] + [leaf];
      MatchesSnoc(front, k, [], leaf);
    } else {
      assert path[0] == prefix[0] && path[1..] == prefix[1..] + "/" + leaf;
      SplitLast(prefix[1..], leaf);
      MatchesSnoc(front, k, Split(prefix[1..]), leaf);
    }
  }

  /** For every prefix, every key of an accepted object gives the same answer. */
  lemma {:induction false} AnyLeafWillDo(iface: Interface, ids: Option<Ids>, t: Table, i: nat, prefix: string)
    requires Accepted(iface) && iface.aggregated && Holds(t, Items(iface, ids)) && i < |iface.mappings|
    ensures Endpoints(iface)[0] != [] && Leaf(Endpoints(iface)[i]).Some?
    ensures Lookup(t, prefix + "/" + Leaf(Endpoints(iface)[i]).value).Some? <==>
        DeclaredPrefix(Endpoints(iface)[0], prefix)
  {
    var es, ends := Items(iface, ids), Endpoints(iface);
    AcceptedIsSeparate(iface, ids);
    assert forall j :: 0 <= j < |es| ==> es[j].segs == ends[j];
    assert ObjectLevel(ends[0], ends[i]);
    ObjectKeys(ends[0], ends[i]);
    var leaf := Leaf(ends[i]).value;
    LeafIsIdentifier(es[i].segs, leaf);
    var path := prefix + "/" + leaf;
    LookupIsScan(t, es, path);
    ObjectPathMatches(ends[0], ends[i], prefix, leaf);
    if DeclaredPrefix(ends[0], prefix) {
      ScanFinds(es, path, i);
    } else if Scan(es, path).Some? {
      var j := ScanSome(es, path);
      assert ObjectLevel(ends[0], ends[j]);
      ObjectPathMatches(ends[0], ends[j], prefix, leaf);
    }
  }

  lemma {:induction false} LeafIsIdentifier(segs: seq<Segment>, leaf: string)
    requires ValidPattern(Keys(segs)) && Leaf(segs) == Some(leaf)
    ensures Identifier(leaf)
  {
    assert Keys(segs)[|segs| - 1] == Lit(leaf);
  }

  lemma {:induction false} LeafAnswer(
    iface: Interface, ids: Option<Ids>, t: Table, leaves: map<string, Compiled>, leaf: string, prefix: string)
    requires Accepted(iface) && iface.aggregated && Holds(t, Items(iface, ids)) &&
        LeafTable(leaves, Items(iface, ids)) && leaf in leaves
    ensures Endpoints(iface)[0] != []
    ensures Lookup(t, prefix + "/" + leaf).Some? <==> DeclaredPrefix(Endpoints(iface)[0], prefix)
  {
    assert HasLeaf(Items(iface, ids), leaf);
    var i :| 0 <= i < |Items(iface, ids)| && Leaf(Items(iface, ids)[i].segs) == Some(leaf);
    assert Endpoints(iface)[i] == Items(iface, ids)[i].segs;
    AnyLeafWillDo(iface, ids, t, i, prefix);
  }

  lemma {:induction false} ObjectHasLeaves(iface: Interface, ids: Option<Ids>, leaves: map<string, Compiled>)
    requires Accepted(iface) && LeafTable(leaves, Items(iface, ids))
    ensures leaves != map[]
  {
    assert Leaf(Items(iface, ids)[0].segs).value in leaves;
  }

  /** Tries whichever key comes first: the answer is the same for all of them. */
  method ObjectPathOk(
    ghost iface: Interface, ghost ids: Option<Ids>, trie: EndpointTrie, leaves: map<string, Compiled>, prefix: string)
    returns (ok: bool)
    requires trie.Valid()
    requires Accepted(iface) && Holds(trie.table, Items(iface, ids))
    requires LeavesOf(iface, ids, leaves)
    ensures ok <==> iface.aggregated && Endpoints(iface)[0] != [] && DeclaredPrefix(Endpoints(iface)[0], prefix)
  {
    if leaves == map[] {
      if iface.aggregated {
        ObjectHasLeaves(iface, ids, leaves);
      }
      return false;
    }
    var leaf :| leaf in leaves;
    LeafAnswer(iface, ids, trie.table, leaves, leaf, prefix);
    var m := trie.Match(prefix + "/" + leaf);
    ok := m.Some?;
  }

  /** The old mapping survives in the new version, with the same attributes. */
  ghost predicate Kept(m: Mapping, n: Mapping) {
    Keys(Segs(m)) == Keys(Segs(n)) && m.attributes == n.attributes && m.policy == n.policy
  }

  ghost predicate KeptIn(m: Mapping, next: Interface) {
    exists j :: 0 <= j < |next.mappings| && Kept(m, next.mappings[j])
  }

  /** What a minor upgrade may do: raise the minor version and add mappings. */
  ghost predicate Upgrades(old0: Interface, next: Interface) {
    && next.name == old0.name && next.major == old0.major && next.minor > old0.minor
    && next.kind == old0.kind && next.ownership == old0.ownership && next.aggregated == old0.aggregated
    && AllKept(old0, next, |old0.mappings|)
  }

  ghost predicate AllKept(old0: Interface, next: Interface, n: nat)
    requires n <= |old0.mappings|
  {
    forall i {:trigger KeptIn(old0.mappings[i], next)} :: 0 <= i < n ==> KeptIn(old0.mappings[i], next)
  }

  lemma {:induction false} UpgradeIsTransitive(a: Interface, b: Interface, c: Interface)
    requires Upgrades(a, b) && Upgrades(b, c)
    ensures Upgrades(a, c)
  {
    forall i | 0 <= i < |a.mappings| ensures KeptIn(a.mappings[i], c) {
      assert KeptIn(a.mappings[i], b);
      var j :| 0 <= j < |b.mappings| && Kept(a.mappings[i], b.mappings[j]);
      assert KeptIn(b.mappings[j], c);
      var k :| 0 <= k < |c.mappings| && Kept(b.mappings[j], c.mappings[k]);
      assert Kept(a.mappings[i], c.mappings[k]);
    }
  }

  lemma {:induction false} UpgradeIsIrreflexive(a: Interface, b: Interface)
    ensures !Upgrades(a, a) && !(Upgrades(a, b) && Upgrades(b, a))
  {
    if Upgrades(a, b) && Upgrades(b, a) {
      UpgradeIsTransitive(a, b, a);
    }
  }

  /** Every path the old version matches is matched by the new one, with the same
      attributes; only the endpoint identifier may differ. */
  lemma {:induction false} UpgradeKeepsPaths(
    old0: Interface, ids: Option<Ids>, t: Table, next: Interface, ids': Option<Ids>, u: Table, path: string)
    requires Accepted(old0) && Accepted(next) && Upgrades(old0, next)
    requires Holds(t, Items(old0, ids)) && Holds(u, Items(next, ids'))
    ensures Lookup(t, path).Some? ==>
        Lookup(u, path).Some? && Lookup(u, path).value.attributes == Lookup(t, path).value.attributes
  {
    var es, fs := Items(old0, ids), Items(next, ids');
    AcceptedIsSeparate(old0, ids);
    AcceptedIsSeparate(next, ids');
    LookupIsScan(t, es, path);
    LookupIsScan(u, fs, path);
    if Scan(es, path).Some? {
      var i := ScanSome(es, path);
      assert KeptIn(old0.mappings[i], next);
      var j :| 0 <= j < |next.mappings| && Kept(old0.mappings[i], next.mappings[j]);
      assert Keys(fs[j].segs) == Keys(es[i].segs);
      ScanFinds(fs, path, j);
    }
  }

  datatype Verdict = Ok | NameChanged | MajorChanged | MinorNotIncreased | Downgrade | ShapeChanged
                   | MissingEndpoint | AttributeChanged | BadEndpoint

  ghost predicate SameVersioning(old0: Interface, next: Interface) {
    next.name == old0.name && next.major == old0.major && next.minor > old0.minor
  }

  ghost predicate SameShape(old0: Interface, next: Interface) {
    next.kind == old0.kind && next.ownership == old0.ownership && next.aggregated == old0.aggregated
  }

  /** The canonical text of a mapping's endpoint. */
  function KeyText(m: Mapping): string {
    Normal(Keys(Segs(m)))
  }

  method NormalizedKey(m: Mapping) returns (key: Option<string>)
    ensures key == if Parses(m) then Some(KeyText(m)) else None
  {
    var segs := SplitEndpoint(m.endpoint);
    if segs.None? {
      return None;
    }
    var text := NormalizeEndpoint(segs.value);
    key := Some(text);
  }

  ghost predicate Found(byEndpoint: map<string, Mapping>, mappings: seq<Mapping>, n: nat, k: string)
    requires n <= |mappings| && k in byEndpoint
  {
    exists j :: 0 <= j < n && byEndpoint[k] == mappings[j] && KeyText(mappings[j]) == k
  }

  /** The first `n` mappings by canonical endpoint text; a later one wins. */
  ghost predicate Indexed(byEndpoint: map<string, Mapping>, mappings: seq<Mapping>, n: nat)
    requires n <= |mappings|
  {
    && (forall j {:trigger KeyText(mappings[j])} :: 0 <= j < n ==>
        Parses(mappings[j]) && KeyText(mappings[j]) in byEndpoint)
    && (forall k {:trigger Found(byEndpoint, mappings, n, k)} :: k in byEndpoint ==> Found(byEndpoint, mappings, n, k))
  }

  /** The compatibility check between two versions. */
  method CheckMinorUpgrade(old0: Interface, next: Interface) returns (v: Verdict)
    ensures v == NameChanged <==> next.name != old0.name
    ensures v == MajorChanged <==> next.name == old0.name && next.major != old0.major
    ensures v == MinorNotIncreased <==> next.name == old0.name && next.major == old0.major && next.minor == old0.minor
    ensures v == Downgrade <==> next.name == old0.name && next.major == old0.major && next.minor < old0.minor
    ensures v == ShapeChanged <==> SameVersioning(old0, next) && !SameShape(old0, next)
    ensures v == Ok ==> AllParse(old0) && AllParse(next) && Upgrades(old0, next)
    ensures Accepted(old0) && Accepted(next) ==> (v == Ok <==> Upgrades(old0, next))
  {
    if next.name != old0.name { return NameChanged; }
    if next.major != old0.major { return MajorChanged; }
    if next.minor == old0.minor { return MinorNotIncreased; }
    if next.minor < old0.minor { return Downgrade; }
    if next.kind != old0.kind || next.ownership != old0.ownership ||
        next.aggregated != old0.aggregated { return ShapeChanged; }
    var index := IndexMappings(next);
    if index.None? {
      return BadEndpoint;
    }
    FirstParseIsAll(next);
    SurvivorsAreKept(old0, next, index.value);
    v := CompareMappings(old0, index.value);
  }

  method IndexMappings(next: Interface) returns (r: Option<map<string, Mapping>>)
    ensures r.Some? <==> FirstParse(next, |next.mappings|)
    ensures r.Some? ==> Indexed(r.value, next.mappings, |next.mappings|)
  {
    var byEndpoint := map[];
    for j := 0 to |next.mappings|
      invariant Indexed(byEndpoint, next.mappings, j) && FirstParse(next, j)
    {
      var key := NormalizedKey(next.mappings[j]);
      if key.None? {
        return None;
      }
      IndexedMore(byEndpoint, next.mappings, j);
      byEndpoint := byEndpoint[key.value := next.mappings[j]];
    }
    r := Some(byEndpoint);
  }

  lemma {:induction false} IndexedMore(byEndpoint: map<string, Mapping>, mappings: seq<Mapping>, j: nat)
    requires j < |mappings| && Indexed(byEndpoint, mappings, j) && Parses(mappings[j])
    ensures Indexed(byEndpoint[KeyText(mappings[j]) := mappings[j]], mappings, j + 1)
  {
    var key := KeyText(mappings[j]);
    var more := byEndpoint[key := mappings[j]];
    forall x | 0 <= x < j + 1 ensures Parses(mappings[x]) && KeyText(mappings[x]) in more {
      assert x < j ==> KeyText(mappings[x]) in byEndpoint;
    }
    forall k | k in more ensures Found(more, mappings, j + 1, k) {
      if k == key {
        assert more[k] == mappings[j];
      } else {
        assert Found(byEndpoint, mappings, j, k);
        var x :| 0 <= x < j && byEndpoint[k] == mappings[x] && KeyText(mappings[x]) == k;
        assert more[k] == mappings[x];
      }
    }
  }

  ghost predicate Agrees(byEndpoint: map<string, Mapping>, m: Mapping) {
    KeyText(m) in byEndpoint && byEndpoint[KeyText(m)].attributes == m.attributes &&
        byEndpoint[KeyText(m)].policy == m.policy
  }

  ghost predicate Survives(byEndpoint: map<string, Mapping>, m: Mapping) {
    Parses(m) && Agrees(byEndpoint, m)
  }

  ghost predicate AllSurvive(byEndpoint: map<string, Mapping>, old0: Interface, n: nat)
    requires n <= |old0.mappings|
  {
    forall i {:trigger Survives(byEndpoint, old0.mappings[i])} :: 0 <= i < n ==> Survives(byEndpoint, old0.mappings[i])
  }

  /** The loop over the old mappings. */
  method CompareMappings(old0: Interface, byEndpoint: map<string, Mapping>) returns (v: Verdict)
    ensures v == Ok || v == MissingEndpoint || v == AttributeChanged || v == BadEndpoint
    ensures v == Ok <==> AllSurvive(byEndpoint, old0, |old0.mappings|)
  {
    for i := 0 to |old0.mappings|
      invariant AllSurvive(byEndpoint, old0, i)
    {
      v := CompareMapping(old0.mappings[i], byEndpoint);
      if v != Ok {
        assert !Survives(byEndpoint, old0.mappings[i]);
        return;
      }
    }
    v := Ok;
  }

  /** Surviving the comparison is being kept by the new version. */
  lemma {:induction false} SurvivorsAreKept(old0: Interface, next: Interface, byEndpoint: map<string, Mapping>)
    requires Indexed(byEndpoint, next.mappings, |next.mappings|)
    ensures AllSurvive(byEndpoint, old0, |old0.mappings|) ==> AllParse(old0) && AllKept(old0, next, |old0.mappings|)
    ensures AllParse(old0) && Unique(Endpoints(next)) && AllKept(old0, next, |old0.mappings|) ==>
              AllSurvive(byEndpoint, old0, |old0.mappings|)
  {
    FirstParseIsAll(old0);
    var n := |old0.mappings|;
    forall i | 0 <= i < n && Parses(old0.mappings[i])
      ensures Agrees(byEndpoint, old0.mappings[i]) ==> KeptIn(old0.mappings[i], next)
      ensures Unique(Endpoints(next)) && KeptIn(old0.mappings[i], next) ==> Agrees(byEndpoint, old0.mappings[i])
    {
      AgreesIsKept(old0.mappings[i], next, byEndpoint);
    }
    if AllSurvive(byEndpoint, old0, n) {
      forall i | 0 <= i < n ensures Parses(old0.mappings[i]) && KeptIn(old0.mappings[i], next) {
        assert Survives(byEndpoint, old0.mappings[i]);
      }
    }
    if AllParse(old0) && Unique(Endpoints(next)) && AllKept(old0, next, n) {
      forall i | 0 <= i < n ensures Survives(byEndpoint, old0.mappings[i]) {
        assert Parses(old0.mappings[i]) && KeptIn(old0.mappings[i], next);
      }
    }
  }

  ghost predicate Parses(m: Mapping) {
    Parse(m.endpoint).Some?
  }

  ghost predicate FirstParse(iface: Interface, n: nat)
    requires n <= |iface.mappings|
  {
    forall i {:trigger Parses(iface.mappings[i])} :: 0 <= i < n ==> Parses(iface.mappings[i])
  }

  lemma {:induction false} FirstParseIsAll(iface: Interface)
    ensures FirstParse(iface, |iface.mappings|) <==> AllParse(iface)
  {
    if FirstParse(iface, |iface.mappings|) {
      forall i | 0 <= i < |iface.mappings| ensures Parse(iface.mappings[i].endpoint).Some? {
        assert Parses(iface.mappings[i]);
      }
    }
  }

  /** One old mapping against what the new version has under its canonical text. */
  method CompareMapping(om: Mapping, byEndpoint: map<string, Mapping>) returns (v: Verdict)
    ensures v == Ok || v == MissingEndpoint || v == AttributeChanged || v == BadEndpoint
    ensures v == Ok <==> Survives(byEndpoint, om)
  {
    var key := NormalizedKey(om);
    if key.None? {
      return BadEndpoint;
    }
    if key.value !in byEndpoint {
      return MissingEndpoint;
    }
    var nm := byEndpoint[key.value];
    if nm.attributes != om.attributes || nm.policy != om.policy {
      return AttributeChanged;
    }
    v := Ok;
  }

  lemma {:induction false} ParsedText(m: Mapping, n: Mapping)
    requires Parses(m) && Parses(n)
    ensures KeyText(m) == KeyText(n) <==> Keys(Segs(m)) == Keys(Segs(n))
  {
    ParsedIsNotEmpty(m.endpoint);
    ParsedIsNotEmpty(n.endpoint);
    NormalIsInjective(Keys(Segs(m)), Keys(Segs(n)));
  }

  /** Agreeing with what is found under the canonical text means being kept; in a version
      with unique endpoints there is no other way to be kept. */
  lemma {:induction false} AgreesIsKept(om: Mapping, next: Interface, byEndpoint: map<string, Mapping>)
    requires Parses(om) && Indexed(byEndpoint, next.mappings, |next.mappings|)
    ensures Agrees(byEndpoint, om) ==> KeptIn(om, next)
    ensures Unique(Endpoints(next)) && KeptIn(om, next) ==> Agrees(byEndpoint, om)
  {
    if KeyText(om) in byEndpoint {
      assert Found(byEndpoint, next.mappings, |next.mappings|, KeyText(om));
      var j :| 0 <= j < |next.mappings| && byEndpoint[KeyText(om)] == next.mappings[j] &&
          KeyText(next.mappings[j]) == KeyText(om);
      ParsedText(om, next.mappings[j]);
      if Agrees(byEndpoint, om) {
        assert Kept(om, next.mappings[j]);
      }
      if Unique(Endpoints(next)) && KeptIn(om, next) {
        var k :| 0 <= k < |next.mappings| && Kept(om, next.mappings[k]);
        OnePlace(next, j, k);
      }
    } else {
      forall k | 0 <= k < |next.mappings| ensures !Kept(om, next.mappings[k]) {
        assert KeyText(next.mappings[k]) in byEndpoint;
      }
    }
  }

  lemma {:induction false} OnePlace(next: Interface, j: nat, k: nat)
    requires Unique(Endpoints(next)) && j < |next.mappings| && k < |next.mappings|
    requires Keys(Segs(next.mappings[j])) == Keys(Segs(next.mappings[k]))
    ensures j == k
  {
    assert Endpoints(next)[j] == Segs(next.mappings[j]) && Endpoints(next)[k] == Segs(next.mappings[k]);
    SameOverlaps(Keys(Segs(next.mappings[j])));
  }
}
