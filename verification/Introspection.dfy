/** Device introspection: the stored row, the interfaces it leaves behind, and the
    events fired for every change. */
module Introspection {

  datatype Version = Version(major: nat, minor: nat)

  type Intro = map<string, Version>

  type Pairs = set<(string, nat)>

  datatype Event = Added(name: string, major: nat, minor: nat) | Removed(name: string, major: nat)

  ghost function PairsOf(m: Intro): Pairs {
    set n | n in m :: (n, m[n].major)
  }

  ghost function Apply(pairs: Pairs, e: Event): Pairs {
    match e
    case Added(n, major, _) => pairs + {(n, major)}
    case Removed(n, major) => pairs - {(n, major)}
  }

  /** The pairs an observer of the events arrives at. */
  ghost function Replay(pairs: Pairs, events: seq<Event>): Pairs {
    if events == [] then pairs else Apply(Replay(pairs, events[..|events| - 1]), events[|events| - 1])
  }

  lemma {:induction false} ReplayAppend(pairs: Pairs, a: seq<Event>, b: seq<Event>)
    ensures Replay(pairs, a + b) == Replay(Replay(pairs, a), b)
    decreases |b|
  {
    if b == [] {
      assert a + b == a;
    } else {
      assert (a + b)[..|a + b| - 1] == a + b[..|b| - 1];
      ReplayAppend(pairs, a, b[..|b| - 1]);
    }
  }

  /** Declared in `m`, and not with the same major in `other`. */
  ghost predicate Differs(m: Intro, other: Intro, n: string) {
    n in m && (n !in other || other[n].major != m[n].major)
  }

  ghost function Changed(m: Intro, other: Intro): Pairs {
    set n | n in m && Differs(m, other, n) :: (n, m[n].major)
  }

  /** Gaining what is new and losing what is gone leads from one set to the other. */
  lemma {:induction false} GainAndLose(prev: Intro, next: Intro)
    ensures PairsOf(prev) + Changed(next, prev) - Changed(prev, next) == PairsOf(next)
  {
    var all := PairsOf(prev) + Changed(next, prev) - Changed(prev, next);
    forall p: (string, nat) ensures p in all <==> p in PairsOf(next) {
      var n := p.0;
      assert p in PairsOf(prev) <==> n in prev && prev[n].major == p.1;
      assert p in PairsOf(next) <==> n in next && next[n].major == p.1;
      assert p in Changed(next, prev) <==> Differs(next, prev, n) && next[n].major == p.1;
      assert p in Changed(prev, next) <==> Differs(prev, next, n) && prev[n].major == p.1;
    }
  }

  ghost function Some(m: Intro, other: Intro, todo: set<string>): Pairs {
    set n | n in m && n !in todo && Differs(m, other, n) :: (n, m[n].major)
  }

  /** The events for interfaces declared anew, in whatever order the map yields them. */
  method FireAdded(prev: Intro, intro: Intro) returns (events: seq<Event>)
    ensures forall pairs :: Replay(pairs, events) == pairs + Changed(intro, prev)
  {
    events := [];
    var todo := intro.Keys;
    while todo != {}
      invariant todo <= intro.Keys
      invariant forall pairs :: Replay(pairs, events) == pairs + Some(intro, prev, todo)
      decreases |todo|
    {
      var n :| n in todo;
      ghost var before := Some(intro, prev, todo);
      todo := todo - {n};
      if n !in prev || prev[n].major != intro[n].major {
        ghost var was := events;
        events := events + [Added(n, intro[n].major, intro[n].minor)];
        assert Some(intro, prev, todo) == before + {(n, intro[n].major)};
        assert events[..|events| - 1] == was;
      } else {
        assert Some(intro, prev, todo) == before;
      }
    }
    assert Some(intro, prev, {}) == Changed(intro, prev);
  }

  method FireRemoved(removed: Intro) returns (events: seq<Event>)
    ensures forall pairs :: Replay(pairs, events) == pairs - PairsOf(removed)
  {
    events := [];
    var todo := removed.Keys;
    ghost var gone: Pairs := {};
    while todo != {}
      invariant todo <= removed.Keys
      invariant gone == set n | n in removed && n !in todo :: (n, removed[n].major)
      invariant forall pairs :: Replay(pairs, events) == pairs - gone
      decreases |todo|
    {
      var n :| n in todo;
      todo := todo - {n};
      ghost var was := events;
      events := events + [Removed(n, removed[n].major)];
      assert events[..|events| - 1] == was;
      gone := gone + {(n, removed[n].major)};
    }
    assert gone == PairsOf(removed);
  }

  /** The loop over the old row has collected what differs among the names done. */
  ghost predicate Collected(prev: Intro, intro: Intro, todo: set<string>, removed: Intro) {
    && (forall n :: n in removed <==> n !in todo && Differs(prev, intro, n))
    && (forall n :: n in removed ==> n in prev && removed[n] == prev[n])
  }

  lemma {:induction false} NothingCollected(prev: Intro, intro: Intro)
    ensures Collected(prev, intro, prev.Keys, map[])
  {
  }

  lemma {:induction false} CollectOne(prev: Intro, intro: Intro, todo: set<string>, removed: Intro, n: string)
    requires Collected(prev, intro, todo, removed) && n in todo && n in prev
    ensures Collected(prev, intro, todo - {n}, if Differs(prev, intro, n) then removed[n := prev[n]] else removed)
  {
  }

  lemma {:induction false} RemovedPairs(prev: Intro, intro: Intro, removed: Intro)
    requires Collected(prev, intro, {}, removed)
    ensures PairsOf(removed) == Changed(prev, intro)
    ensures forall n :: n in removed <==> Differs(prev, intro, n)
  {
    forall p ensures p in PairsOf(removed) <==> p in Changed(prev, intro) {
    }
  }

  lemma {:induction false} MergeOne(old0: Intro, removed: Intro, n: string, v: Version)
    ensures (old0 + removed)[n := v] == old0 + removed[n := v]
  {
  }

  /** The loop over the old row: what is no longer declared with its major, and the old
      interfaces with these merged in. */
  method Compare(prev: Intro, old0: Intro, intro: Intro) returns (removed: Intro, merged: Intro)
    ensures PairsOf(removed) == Changed(prev, intro)
    ensures forall n :: n in removed <==> Differs(prev, intro, n)
    ensures merged == old0 + removed
  {
    hide Changed, PairsOf, Collected;
    removed, merged := map[], old0;
    var todo := prev.Keys;
    NothingCollected(prev, intro);
    while todo != {}
      invariant todo <= prev.Keys && Collected(prev, intro, todo, removed)
      invariant merged == old0 + removed
      decreases |todo|
    {
      var n :| n in todo;
      CollectOne(prev, intro, todo, removed, n);
      todo := todo - {n};
      if n !in intro || intro[n].major != prev[n].major {
        MergeOne(old0, removed, n, prev[n]);
        removed, merged := removed[n := prev[n]], merged[n := prev[n]];
      }
    }
    RemovedPairs(prev, intro, removed);
  }

  class Device {
    var row: Intro
    var oldRow: Intro
    var cached: Intro
    ghost var declared: set<string>

    /** The cache mirrors the row, and every name ever declared is in the row or among
        the old ones. */
    ghost predicate Valid()
      reads this
    {
      cached == row && declared <= row.Keys + oldRow.Keys
    }

    constructor ()
      ensures Valid() && row == map[] && oldRow == map[] && declared == {}
    {
      row, oldRow, cached, declared := map[], map[], map[], {};
    }

    /** Replaces the row; what is no longer declared with its major is returned and kept
        among the old ones. */
    method UpdateIntrospection(intro: Intro) returns (removed: Intro)
      modifies `row, `oldRow
      ensures row == intro
      ensures PairsOf(removed) == Changed(old(row), intro)
      ensures forall n :: n in removed <==> Differs(old(row), intro, n)
      ensures oldRow == old(oldRow) + removed
    {
      var merged;
      removed, merged := Compare(row, oldRow, intro);
      row, oldRow := intro, merged;
    }

    /** One introspection message. A store failure leaves everything as it was and fires
        nothing; otherwise replaying the events on the old pairs gives the new ones. */
    method HandleIntrospection(intro: Intro, stored: bool) returns (events: seq<Event>)
      requires Valid()
      modifies this
      ensures Valid()
      ensures Replay(PairsOf(old(row)), events) == PairsOf(row)
      ensures row == (if stored then intro else old(row)) && (!stored ==> events == [] && oldRow == old(oldRow))
      ensures declared == old(declared) + (if stored then intro.Keys else {})
      ensures stored ==> forall n :: n in oldRow <==> n in old(oldRow) || Differs(old(row), intro, n)
    {
      events := [];
      if !stored {
        return;
      }
      var prev := cached;
      var removed := UpdateIntrospection(intro);
      cached := intro;
      declared := declared + intro.Keys;
      var added := FireAdded(prev, intro);
      var gone := FireRemoved(removed);
      ReplayAppend(PairsOf(prev), added, gone);
      GainAndLose(prev, intro);
      events := added + gone;
    }

    /** Any sequence of introspections: the events of all of them, replayed from nothing,
        give the pairs declared now. */
    method HandleAll(intros: seq<Intro>, verdicts: seq<bool>) returns (events: seq<Event>)
      requires Valid() && row == map[] && declared == {} && |verdicts| == |intros|
      modifies this
      ensures Valid() && Replay({}, events) == PairsOf(row)
      ensures forall i, n :: 0 <= i < |intros| && verdicts[i] && n in intros[i] ==> n in row || n in oldRow
    {
      events := [];
      assert PairsOf(row) == {};
      for i := 0 to |intros|
        invariant Valid() && Replay({}, events) == PairsOf(row)
        invariant forall j, n :: 0 <= j < i && verdicts[j] && n in intros[j] ==> n in declared
      {
        var more := HandleIntrospection(intros[i], verdicts[i]);
        ReplayAppend({}, events, more);
        events := events + more;
      }
      forall i, n | 0 <= i < |intros| && verdicts[i] && n in intros[i] ensures n in row || n in oldRow {
        assert n in declared && n in row.Keys + oldRow.Keys;
      }
    }
  }
}
