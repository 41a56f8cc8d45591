/** Interface acceptance, compilation into the trie, and what a compiled interface
    answers. */
module SchemaCompile {
  import opened Wrappers
  import opened SchemaPath
  import opened SchemaTrie

  /** An endpoint with what it compiles to. */
  datatype Item = Item(segs: seq<Segment>, compiled: Compiled)

  /** `p` is on the way to the endpoint. */
  ghost predicate OnPath(p: Pattern, segs: seq<Segment>) {
    |p| <= |segs| && Keys(segs)[..|p|] == p
  }

  /** Same way to level `k`, a placeholder there in both, under different names. */
  ghost predicate ClashAt(a: seq<Segment>, b: seq<Segment>, k: nat) {
    k < |a| && k < |b| && Keys(a)[..k] == Keys(b)[..k] && a[k].param && b[k].param && a[k].literal != b[k].literal
  }

  ghost predicate Clash(a: seq<Segment>, b: seq<Segment>) {
    exists k :: ClashAt(a, b, k)
  }

  /** `segs` can still be walked down from `t` at level `j`. */
  ghost predicate NameFits(t: Table, segs: seq<Segment>, j: nat)
    requires j < |segs|
  {
    segs[j].param && Keys(segs)[..j + 1] in t && Keys(segs)[..j] in t ==>
        t[Keys(segs)[..j]].paramName == segs[j].literal
  }

  ghost predicate Fits(t: Table, segs: seq<Segment>, k: nat)
    requires k <= |segs|
  {
    forall j :: 0 <= j < k ==> NameFits(t, segs, j)
  }

  ghost predicate NamedBy(t: Table, segs: seq<Segment>, k: nat)
    requires k <= |segs|
  {
    forall j :: 0 <= j < k && segs[j].param ==> Keys(segs)[..j] in t && t[Keys(segs)[..j]].paramName == segs[j].literal
  }

  /** Nothing known about `t` is lost in `u`: places, mappings, and the names of
      parametric children. */
  ghost predicate Extends(t: Table, u: Table) {
    forall p :: p in t ==>
        p in u && u[p].mapping == t[p].mapping && (p + [Any] in t ==> u[p].paramName == t[p].paramName)
  }

  ghost predicate NewAreBare(t: Table, u: Table) {
    forall p :: p in u && p !in t ==> u[p].mapping == None
  }

  ghost predicate Grown(t: Table, u: Table, segs: seq<Segment>, k: nat)
    requires k <= |segs|
  {
    && Extends(t, u) && NewAreBare(t, u) && NamedBy(u, segs, k)
    && forall p :: p in u <==> p in t || (|p| <= k && OnPath(p, segs))
  }

  lemma {:induction false} TakeTake(segs: seq<Segment>, j: nat)
    requires j < |segs|
    ensures Keys(segs)[..j + 1] == Keys(segs)[..j] + [KeyOf(segs[j])]
  {
  }

  lemma {:induction false} NextOnPath(p: Pattern, segs: seq<Segment>, k: nat)
    requires k < |segs|
    ensures |p| <= k + 1 && OnPath(p, segs) <==> (|p| <= k && OnPath(p, segs)) || p == Keys(segs)[..k + 1]
  {
  }

  /** Walking `k` levels down succeeds exactly when no name differs on the way, and adds
      exactly the places on the way. */
  lemma {:induction false} GrowFacts(t: Table, segs: seq<Segment>, k: nat)
    requires Rooted(t) && k <= |segs|
    ensures Grow(t, segs, k).1 <==> Fits(t, segs, k)
    ensures Grow(t, segs, k).1 ==> Grown(t, Grow(t, segs, k).0, segs, k)
    ensures !Grow(t, segs, k).1 ==> Extends(t, Grow(t, segs, k).0) && NewAreBare(t, Grow(t, segs, k).0)
    decreases k
  {
    if k == 0 {
      assert forall p :: |p| <= 0 && OnPath(p, segs) ==> p == [];
    } else {
      GrowFacts(t, segs, k - 1);
      var u := Grow(t, segs, k - 1);
      if u.1 {
        StepFacts(t, u.0, segs, k - 1);
      }
    }
  }

  lemma {:induction false} StepFacts(t: Table, u: Table, segs: seq<Segment>, k: nat)
    requires Rooted(t) && k < |segs| && Grown(t, u, segs, k) && Keys(segs)[..k] in u
    ensures var r := Step(u, Keys(segs)[..k], segs[k]);
            && (r.1 <==> NameFits(t, segs, k))
            && (r.1 ==> Grown(t, r.0, segs, k + 1))
            && (!r.1 ==> r.0 == u)
  {
    var p, q := Keys(segs)[..k], Keys(segs)[..k + 1];
    TakeTake(segs, k);
    ParentOf(t, p, KeyOf(segs[k]));
    assert q in u <==> q in t by { NextIsNew(q, segs, k); }
    if q in u {
      if segs[k].param ==> u[p].paramName == segs[k].literal {
        StepAlong(t, u, segs, k);
      }
    } else {
      StepNew(t, u, segs, k);
    }
  }

  lemma {:induction false} ParentOf(t: Table, p: Pattern, k: Key)
    requires Rooted(t)
    ensures p + [k] in t ==> p in t
  {
    assert Parent(p + [k]) == p;
  }

  lemma {:induction false} NextIsNew(q: Pattern, segs: seq<Segment>, k: nat)
    requires k < |segs| && q == Keys(segs)[..k + 1]
    ensures !(|q| <= k && OnPath(q, segs))
  {
  }

  lemma {:induction false} StepAlong(t: Table, u: Table, segs: seq<Segment>, k: nat)
    requires k < |segs| && Grown(t, u, segs, k) && Keys(segs)[..k] in u && Keys(segs)[..k + 1] in u
    requires segs[k].param ==> u[Keys(segs)[..k]].paramName == segs[k].literal
    ensures Grown(t, u, segs, k + 1)
  {
    forall x ensures x in u <==> x in t || (|x| <= k + 1 && OnPath(x, segs)) {
      NextOnPath(x, segs, k);
    }
  }

  lemma {:induction false} StepNew(t: Table, u: Table, segs: seq<Segment>, k: nat)
    requires Rooted(t) && k < |segs| && Grown(t, u, segs, k) && Keys(segs)[..k] in u && Keys(segs)[..k + 1] !in u
    ensures Grown(t, Step(u, Keys(segs)[..k], segs[k]).0, segs, k + 1)
  {
    var p := Keys(segs)[..k];
    TakeTake(segs, k);
    var v := Step(u, p, segs[k]).0;
    forall x ensures x in v <==> x in t || (|x| <= k + 1 && OnPath(x, segs)) {
      NextOnPath(x, segs, k);
    }
    StepExtends(t, u, p, segs[k]);
    StepNames(u, v, segs, k);
  }

  /** A new child adds one bare place and changes no name that was in use. */
  lemma {:induction false} StepExtends(t: Table, u: Table, p: Pattern, seg: Segment)
    requires Extends(t, u) && NewAreBare(t, u) && p in u && p + [KeyOf(seg)] !in u
    ensures Extends(t, Step(u, p, seg).0) && NewAreBare(t, Step(u, p, seg).0)
  {
    var v := Step(u, p, seg).0;
    forall x | x in t
      ensures x in v && v[x].mapping == t[x].mapping && (x + [Any] in t ==> v[x].paramName == t[x].paramName)
    {
      assert x in u && (x + [Any] in t ==> x + [Any] in u);
    }
  }

  lemma {:induction false} StepNames(u: Table, v: Table, segs: seq<Segment>, k: nat)
    requires k < |segs| && NamedBy(u, segs, k) && Keys(segs)[..k] in u
    requires Keys(segs)[..k + 1] == Keys(segs)[..k] + [KeyOf(segs[k])] && Keys(segs)[..k + 1] !in u
    requires v == Step(u, Keys(segs)[..k], segs[k]).0
    ensures NamedBy(v, segs, k + 1)
  {
    forall j | 0 <= j < k + 1 && segs[j].param
      ensures Keys(segs)[..j] in v && v[Keys(segs)[..j]].paramName == segs[j].literal
    {
      assert |Keys(segs)[..j]| == j;
    }
  }

  ghost predicate Covered(es: seq<Item>, p: Pattern) {
    exists i :: 0 <= i < |es| && OnPath(p, es[i].segs)
  }

  ghost predicate Declared(es: seq<Item>, p: Pattern) {
    exists i :: 0 <= i < |es| && Keys(es[i].segs) == p
  }

  ghost predicate Stored(t: Table, e: Item) {
    Keys(e.segs) in t && t[Keys(e.segs)].mapping == Some(e.compiled)
  }

  /** The table holds exactly the listed endpoints. */
  ghost predicate Holds(t: Table, es: seq<Item>) {
    && [] in t
    && (forall p {:trigger Covered(es, p)} :: p in t <==> p == [] || Covered(es, p))
    && (forall i {:trigger es[i]} :: 0 <= i < |es| ==> NamedBy(t, es[i].segs, |es[i].segs|) && Stored(t, es[i]))
    && (forall p {:trigger Declared(es, p)} :: p in t && t[p].mapping.Some? ==> Declared(es, p))
  }

  ghost predicate Compatible(es: seq<Item>, e: Item) {
    forall i {:trigger es[i]} :: 0 <= i < |es| ==> !Clash(es[i].segs, e.segs) && Keys(es[i].segs) != Keys(e.segs)
  }

  lemma {:induction false} HoldsRooted(t: Table, es: seq<Item>)
    requires Holds(t, es)
    ensures Rooted(t)
  {
    forall p | p in t && p != [] ensures Parent(p) in t {
      assert Covered(es, p);
      var i :| 0 <= i < |es| && OnPath(p, es[i].segs);
      OnPathParent(p, es[i].segs);
      assert Covered(es, Parent(p));
    }
  }

  lemma {:induction false} OnPathParent(p: Pattern, segs: seq<Segment>)
    requires OnPath(p, segs)
    ensures OnPath(Parent(p), segs)
  {
    assert Keys(segs)[..|Parent(p)|] == Parent(p);
  }

  lemma {:induction false} SameWay(other: seq<Segment>, segs: seq<Segment>, j: nat)
    requires j < |segs| && OnPath(Keys(segs)[..j + 1], other)
    ensures j < |other| && KeyOf(other[j]) == KeyOf(segs[j]) && Keys(other)[..j] == Keys(segs)[..j]
  {
    assert Keys(other)[..j + 1][j] == Keys(segs)[..j + 1][j];
    assert Keys(other)[..j] == Keys(other)[..j + 1][..j] == Keys(segs)[..j];
  }

  lemma {:induction false} NoFitIsClash(t: Table, es: seq<Item>, segs: seq<Segment>, j: nat)
    requires Holds(t, es) && j < |segs| && !NameFits(t, segs, j)
    ensures exists i :: 0 <= i < |es| && Clash(es[i].segs, segs)
  {
    var q := Keys(segs)[..j + 1];
    assert q != [] && Covered(es, q);
    var i :| 0 <= i < |es| && OnPath(q, es[i].segs);
    var other := es[i].segs;
    SameWay(other, segs, j);
    assert NamedBy(t, other, |other|);
    assert ClashAt(other, segs, j);
  }

  lemma {:induction false} ClashIsNoFit(t: Table, es: seq<Item>, segs: seq<Segment>, i: nat, k: nat)
    requires Holds(t, es) && i < |es| && ClashAt(es[i].segs, segs, k)
    ensures !NameFits(t, segs, k)
  {
    var other := es[i].segs;
    TakeTake(segs, k);
    TakeTake(other, k);
    assert OnPath(Keys(segs)[..k + 1], other) && OnPath(Keys(segs)[..k], other);
    assert Covered(es, Keys(segs)[..k + 1]) && Covered(es, Keys(segs)[..k]);
    assert NamedBy(t, other, |other|);
  }

  lemma {:induction false} FitsIff(t: Table, es: seq<Item>, segs: seq<Segment>)
    requires Holds(t, es)
    ensures Fits(t, segs, |segs|) <==> forall i {:trigger es[i]} :: 0 <= i < |es| ==> !Clash(es[i].segs, segs)
  {
    if Fits(t, segs, |segs|) {
      forall i | 0 <= i < |es| ensures !Clash(es[i].segs, segs) {
        if Clash(es[i].segs, segs) {
          var k :| ClashAt(es[i].segs, segs, k);
          ClashIsNoFit(t, es, segs, i, k);
        }
      }
    } else {
      var j :| 0 <= j < |segs| && !NameFits(t, segs, j);
      NoFitIsClash(t, es, segs, j);
    }
  }

  /** Adding an endpoint to a table of others succeeds exactly when it names no
      placeholder differently and is not among them. */
  lemma {:induction false} InsertIff(t: Table, es: seq<Item>, e: Item)
    requires Holds(t, es) && e.segs != []
    ensures Insert(t, e.segs, e.compiled).1 <==> Compatible(es, e)
    ensures Insert(t, e.segs, e.compiled).1 ==> Holds(Insert(t, e.segs, e.compiled).0, es + [e])
  {
    HoldsRooted(t, es);
    var segs, q := e.segs, Keys(e.segs);
    GrowFacts(t, segs, |segs|);
    FitsIff(t, es, segs);
    var u := Grow(t, segs, |segs|);
    assert q[..|segs|] == q;
    if u.1 {
      if u.0[q].mapping.Some? {
        assert q in t && Declared(es, q);
      } else {
        forall i | 0 <= i < |es| ensures Keys(es[i].segs) != q {
          assert Stored(t, es[i]);
        }
        HoldsMore(t, u.0, es, e);
      }
    }
  }

  lemma {:induction false} HoldsMore(t: Table, u: Table, es: seq<Item>, e: Item)
    requires Holds(t, es) && Grown(t, u, e.segs, |e.segs|) && Keys(e.segs) in u && e.segs != []
    requires u[Keys(e.segs)].mapping == None
    ensures Holds(u[Keys(e.segs) := u[Keys(e.segs)].(mapping := Some(e.compiled))], es + [e])
  {
    var q := Keys(e.segs);
    var v, all := u[q := u[q].(mapping := Some(e.compiled))], es + [e];
    forall p ensures p in v <==> p == [] || Covered(all, p) {
      CoveredMore(es, e, p);
    }
    forall i | 0 <= i < |all| ensures NamedBy(v, all[i].segs, |all[i].segs|) && Stored(v, all[i]) {
      if i < |es| {
        assert all[i] == es[i] && NamedBy(t, es[i].segs, |es[i].segs|) && Stored(t, es[i]);
        NamedStill(t, u, es[i].segs, es);
      }
    }
    forall p | p in v && v[p].mapping.Some? ensures Declared(all, p) {
      if p == q {
        assert all[|es|] == e;
      } else {
        assert p in t && Declared(es, p);
        var i :| 0 <= i < |es| && Keys(es[i].segs) == p;
        assert all[i] == es[i];
      }
    }
  }

  lemma {:induction false} CoveredMore(es: seq<Item>, e: Item, p: Pattern)
    ensures Covered(es + [e], p) <==> Covered(es, p) || OnPath(p, e.segs)
  {
    var all := es + [e];
    if Covered(es, p) {
      var i :| 0 <= i < |es| && OnPath(p, es[i].segs);
      assert all[i] == es[i];
    }
    if OnPath(p, e.segs) {
      assert all[|es|] == e;
    }
    if Covered(all, p) {
      var i :| 0 <= i < |all| && OnPath(p, all[i].segs);
      assert i < |es| ==> all[i] == es[i];
    }
  }

  lemma {:induction false} NamedStill(t: Table, u: Table, segs: seq<Segment>, es: seq<Item>)
    requires Extends(t, u) && NamedBy(t, segs, |segs|)
    requires forall p :: p in t <==> p == [] || Covered(es, p)
    requires exists i :: 0 <= i < |es| && es[i].segs == segs
    ensures NamedBy(u, segs, |segs|)
  {
    var i :| 0 <= i < |es| && es[i].segs == segs;
    forall j | 0 <= j < |segs| && segs[j].param ensures Keys(segs)[..j] in u &&
        u[Keys(segs)[..j]].paramName == segs[j].literal {
      TakeTake(segs, j);
      assert OnPath(Keys(segs)[..j + 1], es[i].segs);
      assert Covered(es, Keys(segs)[..j + 1]);
    }
  }

  /** Adding a list of endpoints, stopping at the first that fails. */
  ghost function Build(es: seq<Item>): (r: (Table, bool))
    ensures [] in r.0
  {
    if es == [] then (Empty, true) else
      var r := Build(es[..|es| - 1]);
      if r.1 then
        var e := es[|es| - 1];
        InsertKeepsRoot(r.0, e.segs, e.compiled);
        Insert(r.0, e.segs, e.compiled)
      else r
  }

  lemma {:induction false} InsertKeepsRoot(t: Table, segs: seq<Segment>, m: Compiled)
    requires [] in t
    ensures [] in Insert(t, segs, m).0
  {
    GrowKeepsRoot(t, segs, |segs|);
  }

  lemma {:induction false} GrowKeepsRoot(t: Table, segs: seq<Segment>, k: nat)
    requires [] in t && k <= |segs|
    ensures [] in Grow(t, segs, k).0
    decreases k
  {
    if k > 0 {
      GrowKeepsRoot(t, segs, k - 1);
    }
  }

  ghost predicate Coherent(es: seq<Item>) {
    forall i, j :: 0 <= i < j < |es| ==> !Clash(es[i].segs, es[j].segs) && Keys(es[i].segs) != Keys(es[j].segs)
  }

  /** Building succeeds exactly when no two endpoints are the same up to placeholder
      names or disagree on a placeholder name, and then the table holds them all. */
  lemma {:induction false} BuildIff(es: seq<Item>)
    requires forall i :: 0 <= i < |es| ==> es[i].segs != []
    ensures Build(es).1 <==> Coherent(es)
    ensures Build(es).1 ==> Holds(Build(es).0, es)
    decreases |es|
  {
    if es == [] {
      assert forall p :: p in Empty <==> p == [];
    } else {
      var n := |es| - 1;
      BuildIff(es[..n]);
      assert es == es[..n] + [es[n]];
      CoherentMore(es[..n], es[n]);
      if Build(es[..n]).1 {
        InsertIff(Build(es[..n]).0, es[..n], es[n]);
      }
    }
  }

  lemma {:induction false} CoherentMore(es: seq<Item>, e: Item)
    ensures Coherent(es + [e]) <==> Coherent(es) && Compatible(es, e)
  {
    var all := es + [e];
    assert forall i :: 0 <= i < |es| ==> all[i] == es[i];
    assert all[|es|] == e;
  }
}
