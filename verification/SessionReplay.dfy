/** The replay list after a restart: queueing order per client, with creation times
    clamped forward. */
module SessionReplay {
  import opened SessionStore

  function OfClient(recs: seq<Record>, c: Id): seq<Record> {
    if recs == [] then []
    else if recs[|recs| - 1].client == c then OfClient(recs[..|recs| - 1], c) + [recs[|recs| - 1]]
    else OfClient(recs[..|recs| - 1], c)
  }

  lemma {:induction false} OfClientAppend(a: seq<Record>, b: seq<Record>, c: Id)
    ensures OfClient(a + b, c) == OfClient(a, c) + OfClient(b, c)
    decreases |b|
  {
    if b == [] {
      assert a + b == a;
    } else {
      var n := |b| - 1;
      assert (a + b)[..|a + b| - 1] == a + b[..n];
      OfClientAppend(a, b[..n], c);
    }
  }

  lemma {:induction false} OfClientMembers(recs: seq<Record>, c: Id)
    ensures forall r :: r in OfClient(recs, c) <==> r in recs && r.client == c
    ensures |OfClient(recs, c)| <= |recs|
    decreases |recs|
  {
    if recs != [] {
      OfClientMembers(recs[..|recs| - 1], c);
      assert recs == recs[..|recs| - 1] + [recs[|recs| - 1]];
    }
  }

  lemma {:induction false} AllOfClient(recs: seq<Record>, c: Id)
    requires forall i :: 0 <= i < |recs| ==> recs[i].client == c
    ensures OfClient(recs, c) == recs && forall d :: d != c ==> OfClient(recs, d) == []
    decreases |recs|
  {
    if recs != [] {
      AllOfClient(recs[..|recs| - 1], c);
      assert recs == recs[..|recs| - 1] + [recs[|recs| - 1]];
    }
  }

  /** Places `r` after everything that was queued no later. */
  function InsertBySeq(sorted: seq<Record>, r: Record): seq<Record> {
    if sorted == [] || sorted[|sorted| - 1].seqNo <= r.seqNo then sorted + [r]
    else InsertBySeq(sorted[..|sorted| - 1], r) + [sorted[|sorted| - 1]]
  }

  function SortBySeq(recs: seq<Record>): (r: seq<Record>)
    ensures |r| == |recs|
  {
    if recs == [] then [] else
      var n := |recs| - 1;
      InsertedLength(SortBySeq(recs[..n]), recs[n]);
      InsertBySeq(SortBySeq(recs[..n]), recs[n])
  }

  lemma {:induction false} InsertedLength(sorted: seq<Record>, r: Record)
    ensures |InsertBySeq(sorted, r)| == |sorted| + 1
    decreases |sorted|
  {
    if !(sorted == [] || sorted[|sorted| - 1].seqNo <= r.seqNo) {
      InsertedLength(sorted[..|sorted| - 1], r);
    }
  }

  /** Everything from `j` on was queued later than `r`, what is before was not: `r` goes
      in at `j`. */
  lemma {:induction false} InsertedAt(sorted: seq<Record>, r: Record, j: nat)
    requires j <= |sorted| && (j == 0 || sorted[j - 1].seqNo <= r.seqNo)
    requires forall k :: j <= k < |sorted| ==> sorted[k].seqNo > r.seqNo
    ensures InsertBySeq(sorted, r) == sorted[..j] + [r] + sorted[j..]
    decreases |sorted|
  {
    var n := |sorted| - 1;
    if j == |sorted| {
      assert sorted[..j] == sorted && sorted[j..] == [];
    } else {
      InsertedAt(sorted[..n], r, j);
      assert sorted[..n][..j] == sorted[..j] && sorted[j..] == sorted[..n][j..] + [sorted[n]];
    }
  }

  /** The insertion sort, in place, by adjacent swaps. */
  method SortGroup(a: array<Record>)
    modifies a
    ensures a[..] == SortBySeq(old(a[..]))
  {
    ghost var was := a[..];
    if a.Length == 0 {
      return;
    }
    assert was[..1] == [was[0]] && was[..1][..0] == [];
    assert SortBySeq(was[..1]) == was[..1];
    for i := 1 to a.Length
      invariant a[..i] == SortBySeq(was[..i]) && a[i..] == was[i..]
    {
      assert was[..i + 1][..i] == was[..i];
      assert a[i] == a[i..][0] == was[i] && a[i + 1..] == a[i..][1..] == was[i + 1..];
      SinkDown(a, i);
      assert a[..i + 1] == SortBySeq(was[..i + 1]);
    }
    assert was[..a.Length] == was && a[..a.Length] == a[..];
  }

  /** The inner loop: the element at `i` sinks to its place among the sorted ones. */
  method SinkDown(a: array<Record>, i: nat)
    requires 0 < i < a.Length
    modifies a
    ensures a[..i + 1] == InsertBySeq(old(a[..i]), old(a[i])) && a[i + 1..] == old(a[i + 1..])
  {
    ghost var sorted, r := a[..i], a[i];
    var j := i;
    while j > 0 && a[j - 1].seqNo > a[j].seqNo
      invariant 0 <= j <= i && a[j] == r && a[i + 1..] == old(a[i + 1..])
      invariant forall k :: 0 <= k < j ==> a[k] == sorted[k]
      invariant forall k :: j <= k < i ==> a[k + 1] == sorted[k] && sorted[k].seqNo > r.seqNo
    {
      a[j - 1], a[j] := a[j], a[j - 1];
      j := j - 1;
    }
    InsertedAt(sorted, r, j);
    Assembled(a[..i + 1], sorted, r, j);
  }

  lemma {:induction false} Assembled(all: seq<Record>, sorted: seq<Record>, r: Record, j: nat)
    requires j <= |sorted| && |all| == |sorted| + 1 && all[j] == r
    requires forall k :: 0 <= k < j ==> all[k] == sorted[k]
    requires forall k :: j <= k < |sorted| ==> all[k + 1] == sorted[k]
    ensures all == sorted[..j] + [r] + sorted[j..]
  {
    assert forall k :: j < k < |all| ==> all[k] == sorted[k - 1];
  }

  ghost predicate RisingSeq(recs: seq<Record>) {
    forall i, j :: 0 <= i < j < |recs| ==> recs[i].seqNo < recs[j].seqNo
  }

  lemma {:induction false} InsertMembers(sorted: seq<Record>, r: Record)
    ensures forall x :: x in InsertBySeq(sorted, r) <==> x in sorted || x == r
    decreases |sorted|
  {
    if !(sorted == [] || sorted[|sorted| - 1].seqNo <= r.seqNo) {
      InsertMembers(sorted[..|sorted| - 1], r);
      assert sorted == sorted[..|sorted| - 1] + [sorted[|sorted| - 1]];
    }
  }

  lemma {:induction false} InsertRises(sorted: seq<Record>, r: Record)
    requires RisingSeq(sorted) && forall x :: x in sorted ==> x.seqNo != r.seqNo
    ensures RisingSeq(InsertBySeq(sorted, r))
    decreases |sorted|
  {
    if sorted != [] {
      var n := |sorted| - 1;
      assert sorted[n] in sorted;
      if sorted[n].seqNo > r.seqNo {
        var front := sorted[..n];
        assert forall x :: x in front ==> x in sorted;
        InsertRises(front, r);
        InsertMembers(front, r);
        var placed := InsertBySeq(front, r);
        forall i | 0 <= i < |placed| ensures placed[i].seqNo < sorted[n].seqNo {
          assert placed[i] in placed;
        }
      }
    }
  }

  ghost predicate DistinctSeq(recs: seq<Record>) {
    forall i, j :: 0 <= i < j < |recs| ==> recs[i].seqNo != recs[j].seqNo
  }

  lemma {:induction false} SortRises(recs: seq<Record>)
    requires DistinctSeq(recs)
    ensures RisingSeq(SortBySeq(recs)) && forall x :: x in SortBySeq(recs) <==> x in recs
    decreases |recs|
  {
    if recs != [] {
      var n := |recs| - 1;
      assert forall i :: 0 <= i < n ==> recs[..n][i] == recs[i];
      SortRises(recs[..n]);
      assert recs == recs[..n] + [recs[n]];
      forall x | x in SortBySeq(recs[..n]) ensures x.seqNo != recs[n].seqNo {
        assert x in recs[..n];
        var i :| 0 <= i < n && recs[i] == x;
      }
      InsertRises(SortBySeq(recs[..n]), recs[n]);
      InsertMembers(SortBySeq(recs[..n]), recs[n]);
    }
  }

  ghost predicate SameRecords(a: seq<Record>, b: seq<Record>) {
    forall x :: x in a <==> x in b
  }

  /** Two rising lists of the same records are the same list. */
  lemma {:induction false} RisingIsUnique(a: seq<Record>, b: seq<Record>)
    requires RisingSeq(a) && RisingSeq(b) && SameRecords(a, b)
    ensures a == b
    decreases |a| + |b|, |a| < |b|
  {
    if |a| < |b| {
      RisingIsUnique(b, a);
    } else if a != [] {
      var m, n := |a| - 1, |b| - 1;
      assert a[m] in a && a[m] in b;
      LastIsGreatest(a, b);
      LastIsGreatest(b, a);
      SameLast(a, b);
      SameFronts(a, b);
      RisingIsUnique(a[..m], b[..n]);
      assert a == a[..m] + [a[m]] && b == b[..n] + [b[n]];
    }
  }

  lemma {:induction false} LastIsGreatest(a: seq<Record>, b: seq<Record>)
    requires RisingSeq(a) && a != [] && b != [] && SameRecords(a, b)
    ensures b[|b| - 1].seqNo <= a[|a| - 1].seqNo
  {
    assert b[|b| - 1] in b;
    var i :| 0 <= i < |a| && a[i] == b[|b| - 1];
  }

  lemma {:induction false} SameLast(a: seq<Record>, b: seq<Record>)
    requires RisingSeq(a) && RisingSeq(b) && a != [] && b != [] && SameRecords(a, b)
    requires a[|a| - 1].seqNo == b[|b| - 1].seqNo
    ensures a[|a| - 1] == b[|b| - 1]
  {
    assert b[|b| - 1] in b;
    var i :| 0 <= i < |a| && a[i] == b[|b| - 1];
  }

  lemma {:induction false} SameFronts(a: seq<Record>, b: seq<Record>)
    requires RisingSeq(a) && RisingSeq(b) && a != [] && b != [] && SameRecords(a, b)
    requires a[|a| - 1] == b[|b| - 1]
    ensures RisingSeq(a[..|a| - 1]) && RisingSeq(b[..|b| - 1])
    ensures SameRecords(a[..|a| - 1], b[..|b| - 1])
  {
    var af, bf := a[..|a| - 1], b[..|b| - 1];
    forall x ensures x in af <==> x in bf {
      FrontMember(a, x);
      FrontMember(b, x);
      assert x in a <==> x in b;
    }
  }

  lemma {:induction false} FrontMember(a: seq<Record>, x: Record)
    requires RisingSeq(a) && a != []
    ensures x in a[..|a| - 1] <==> x in a && x != a[|a| - 1]
  {
    assert a == a[..|a| - 1] + [a[|a| - 1]];
    assert forall i :: 0 <= i < |a| - 1 ==> a[..|a| - 1][i] == a[i];
  }

  /** Creation times pushed forward just enough to rise strictly. */
  function Clamp(recs: seq<Record>): (out: seq<Record>)
    ensures |out| == |recs|
  {
    if recs == [] then [] else
      var n := |recs| - 1;
      var front := Clamp(recs[..n]);
      front + [if n > 0 && recs[n].created <= front[n - 1].created
               then recs[n].(created := front[n - 1].created + 1)
               else recs[n]]
  }

  /** Clamping changes nothing but creation times, never moves one back, leaves the first
      alone, and makes them strictly increasing. */
  lemma {:induction false} ClampFacts(recs: seq<Record>)
    ensures forall i :: 0 <= i < |recs| ==> Clamp(recs)[i].(created := 0) == recs[i].(created := 0)
    ensures forall i :: 0 <= i < |recs| ==> Clamp(recs)[i].created >= recs[i].created
    ensures recs != [] ==> Clamp(recs)[0] == recs[0]
    ensures forall i, j :: 0 <= i < j < |recs| ==> Clamp(recs)[i].created < Clamp(recs)[j].created
    decreases |recs|
  {
    if recs != [] {
      var n := |recs| - 1;
      ClampFacts(recs[..n]);
    }
  }

  /** Times that rise strictly and are never before the recorded ones. */
  ghost predicate RisesAbove(times: seq<int>, recs: seq<Record>) {
    && |times| == |recs|
    && (forall i :: 0 <= i < |recs| ==> times[i] >= recs[i].created)
    && (forall i, j :: 0 <= i < j < |recs| ==> times[i] < times[j])
  }

  /** Clamping pushes no creation time further than any such times must. */
  lemma {:induction false} ClampIsLeast(recs: seq<Record>, times: seq<int>)
    requires RisesAbove(times, recs)
    ensures forall i :: 0 <= i < |recs| ==> Clamp(recs)[i].created <= times[i]
    decreases |recs|
  {
    if recs != [] {
      var n := |recs| - 1;
      ClampIsLeast(recs[..n], times[..n]);
    }
  }

  /** What one client is sent after a restart. */
  function Replay(group: seq<Record>): seq<Record> {
    Clamp(SortBySeq(group))
  }

  /** The records by client, and the clients in order of appearance. */
  method GroupByClient(recs: seq<Record>) returns (byClient: map<Id, seq<Record>>, clients: seq<Id>)
    ensures forall c :: c in byClient ==> byClient[c] == OfClient(recs, c)
    ensures forall c :: c !in byClient ==> OfClient(recs, c) == []
    ensures forall i, j :: 0 <= i < j < |clients| ==> clients[i] != clients[j]
    ensures forall c :: c in clients <==> c in byClient
  {
    byClient, clients := map[], [];
    for i := 0 to |recs|
      invariant forall c :: c in byClient ==> byClient[c] == OfClient(recs[..i], c)
      invariant forall c :: c !in byClient ==> OfClient(recs[..i], c) == []
      invariant forall x, y :: 0 <= x < y < |clients| ==> clients[x] != clients[y]
      invariant forall c :: c in clients <==> c in byClient
    {
      var r := recs[i];
      assert recs[..i + 1][..i] == recs[..i];
      if r.client !in byClient {
        clients := clients + [r.client];
        byClient := byClient[r.client := []];
      }
      byClient := byClient[r.client := byClient[r.client] + [r]];
    }
    assert recs[..|recs|] == recs;
  }

  /** Sorts and clamps one client's group. */
  method ReplayGroup(group: seq<Record>) returns (out: seq<Record>)
    ensures out == Replay(group)
  {
    var a := new Record[|group|](i requires 0 <= i < |group| => group[i]);
    assert a[..] == group;
    SortGroup(a);
    out := ClampGroup(a[..]);
  }

  method ClampGroup(sorted: seq<Record>) returns (out: seq<Record>)
    ensures out == Clamp(sorted)
  {
    out := [];
    var prev := 0;
    for i := 0 to |sorted|
      invariant out == Clamp(sorted[..i]) && (i > 0 ==> prev == out[i - 1].created)
    {
      assert sorted[..i + 1][..i] == sorted[..i];
      var msg := sorted[i];
      if i > 0 && msg.created <= prev {
        msg := msg.(created := prev + 1);
      }
      prev := msg.created;
      out := out + [msg];
    }
    assert sorted[..|sorted|] == sorted;
  }

  lemma {:induction false} ReplayOwner(group: seq<Record>, c: Id)
    requires forall r :: r in group ==> r.client == c
    ensures forall i :: 0 <= i < |Replay(group)| ==> Replay(group)[i].client == c
  {
    SortMembers(group);
    ClampFacts(SortBySeq(group));
    forall i | 0 <= i < |Replay(group)| ensures Replay(group)[i].client == c {
      assert SortBySeq(group)[i] in SortBySeq(group);
      assert Replay(group)[i].(created := 0) == SortBySeq(group)[i].(created := 0);
    }
  }

  lemma {:induction false} SortMembers(recs: seq<Record>)
    ensures forall x :: x in SortBySeq(recs) <==> x in recs
    decreases |recs|
  {
    if recs != [] {
      var n := |recs| - 1;
      SortMembers(recs[..n]);
      assert recs == recs[..n] + [recs[n]];
      InsertMembers(SortBySeq(recs[..n]), recs[n]);
    }
  }

  /** The clients in `done` have their replay in `out`, and nobody else has anything. */
  ghost predicate Normalized(out: seq<Record>, recs: seq<Record>, done: seq<Id>) {
    forall c {:trigger OfClient(out, c)} :: OfClient(out, c) == if c in done then Replay(OfClient(recs, c)) else []
  }

  lemma {:induction false} NormalizedMore(out: seq<Record>, recs: seq<Record>, clients: seq<Id>, k: nat)
    requires k < |clients| && (forall i, j :: 0 <= i < j < |clients| ==> clients[i] != clients[j])
    requires Normalized(out, recs, clients[..k])
    ensures Normalized(out + Replay(OfClient(recs, clients[k])), recs, clients[..k + 1])
  {
    var id := clients[k];
    var group := Replay(OfClient(recs, id));
    OfClientMembers(recs, id);
    ReplayOwner(OfClient(recs, id), id);
    AllOfClient(group, id);
    forall c ensures OfClient(out + group, c) == if c in clients[..k + 1] then Replay(OfClient(recs, c)) else [] {
      OfClientAppend(out, group, c);
      TakenMore(clients, k, c);
    }
  }

  /** Each client's part of the result is its own records, sorted and clamped. */
  method NormalizeInflightOrder(recs: seq<Record>) returns (out: seq<Record>)
    ensures forall c :: OfClient(out, c) == Replay(OfClient(recs, c))
  {
    var byClient, clients := GroupByClient(recs);
    out := [];
    for k := 0 to |clients|
      invariant Normalized(out, recs, clients[..k])
    {
      assert clients[k] in clients;
      NormalizedMore(out, recs, clients, k);
      var group := ReplayGroup(byClient[clients[k]]);
      out := out + group;
    }
    assert clients[..|clients|] == clients;
    assert Replay([]) == [];
  }

  lemma {:induction false} TakenMore(clients: seq<Id>, k: nat, c: Id)
    requires k < |clients| && forall i, j :: 0 <= i < j < |clients| ==> clients[i] != clients[j]
    ensures c in clients[..k + 1] <==> c in clients[..k] || c == clients[k]
    ensures clients[k] !in clients[..k]
  {
    assert clients[..k + 1] == clients[..k] + [clients[k]];
  }

  /** The records of the queue, in queueing order. */
  ghost function InOrder(order: seq<Key>, inflight: map<Key, Record>): (recs: seq<Record>)
    requires Queue(order, inflight)
    ensures |recs| == |order| && forall i :: 0 <= i < |order| ==> order[i] in inflight && recs[i] == inflight[order[i]]
  {
    assert forall i :: 0 <= i < |order| ==> order[i] in order;
    seq(|order|, i requires 0 <= i < |order| => inflight[order[i]])
  }

  lemma {:induction false} InOrderRises(order: seq<Key>, inflight: map<Key, Record>)
    requires Queue(order, inflight)
    ensures RisingSeq(InOrder(order, inflight))
  {
    var recs := InOrder(order, inflight);
    forall i, j | 0 <= i < j < |recs| ensures recs[i].seqNo < recs[j].seqNo {
      assert Number(inflight, order[i]) < Number(inflight, order[j]);
    }
  }

  lemma {:induction false} BelowLast(recs: seq<Record>, r: Record)
    requires RisingSeq(recs) && recs != [] && r in recs[..|recs| - 1]
    ensures r.seqNo < recs[|recs| - 1].seqNo
  {
    var j :| 0 <= j < |recs| - 1 && recs[j] == r;
  }

  lemma {:induction false} OfClientRises(recs: seq<Record>, c: Id)
    requires RisingSeq(recs)
    ensures RisingSeq(OfClient(recs, c))
    decreases |recs|
  {
    if recs != [] {
      var n := |recs| - 1;
      OfClientRises(recs[..n], c);
      OfClientMembers(recs[..n], c);
      var front := OfClient(recs[..n], c);
      forall i | 0 <= i < |front| ensures front[i].seqNo < recs[n].seqNo {
        assert front[i] in front;
        BelowLast(recs, front[i]);
      }
    }
  }

  /** Every stored record once, in whatever order the store yields them. */
  ghost predicate Lists(recs: seq<Record>, inflight: map<Key, Record>) {
    DistinctSeq(recs) && forall r :: r in recs <==> r in inflight.Values
  }

  /** Whatever order the records are read in, sorting by sequence number restores the
      order in which a client's messages were first queued. */
  lemma {:induction false} SortIsQueueOrder(recs: seq<Record>, order: seq<Key>, inflight: map<Key, Record>, c: Id)
    requires Queue(order, inflight) && Lists(recs, inflight)
    ensures SortBySeq(OfClient(recs, c)) == OfClient(InOrder(order, inflight), c)
  {
    var queue := InOrder(order, inflight);
    InOrderRises(order, inflight);
    OfClientRises(queue, c);
    OfClientDistinct(recs, c);
    SortRises(OfClient(recs, c));
    OfClientMembers(recs, c);
    OfClientMembers(queue, c);
    SameAsQueue(recs, order, inflight);
    RisingIsUnique(SortBySeq(OfClient(recs, c)), OfClient(queue, c));
  }

  lemma {:induction false} SameAsQueue(recs: seq<Record>, order: seq<Key>, inflight: map<Key, Record>)
    requires Queue(order, inflight) && Lists(recs, inflight)
    ensures SameRecords(recs, InOrder(order, inflight))
  {
    var queue := InOrder(order, inflight);
    forall r ensures r in recs <==> r in queue {
      if r in queue {
        var i :| 0 <= i < |queue| && queue[i] == r;
        assert order[i] in inflight && inflight[order[i]] == r;
      }
      if r in recs {
        assert r in inflight.Values;
        var k :| k in inflight && inflight[k] == r;
        assert k in order;
        var i :| 0 <= i < |order| && order[i] == k;
        assert queue[i] == r;
      }
    }
  }

  lemma {:induction false} OfClientDistinct(recs: seq<Record>, c: Id)
    requires DistinctSeq(recs)
    ensures DistinctSeq(OfClient(recs, c))
    decreases |recs|
  {
    if recs != [] {
      var n := |recs| - 1;
      assert forall i :: 0 <= i < n ==> recs[..n][i] == recs[i];
      OfClientDistinct(recs[..n], c);
      OfClientMembers(recs[..n], c);
      var front := OfClient(recs[..n], c);
      forall i | 0 <= i < |front| ensures front[i].seqNo != recs[n].seqNo {
        assert front[i] in front;
        var j :| 0 <= j < n && recs[j] == front[i];
      }
    }
  }

  ghost predicate ReadFrom(r: Record, inflight: map<Key, Record>, todo: set<Key>) {
    exists k :: k in inflight && k !in todo && inflight[k] == r
  }

  /** Everything outside `todo` has been read, once. */
  ghost predicate ReadSoFar(recs: seq<Record>, inflight: map<Key, Record>, todo: set<Key>) {
    DistinctSeq(recs) && forall r :: r in recs <==> ReadFrom(r, inflight, todo)
  }

  lemma {:induction false} ReadMore(
    recs: seq<Record>, order: seq<Key>, inflight: map<Key, Record>, todo: set<Key>, k: Key)
    requires Queue(order, inflight) && ReadSoFar(recs, inflight, todo) && k in todo && k in inflight
    ensures ReadSoFar(recs + [inflight[k]], inflight, todo - {k})
  {
    var more, rest := recs + [inflight[k]], todo - {k};
    NumbersDiffer(order, inflight);
    forall i | 0 <= i < |recs| ensures recs[i].seqNo != inflight[k].seqNo {
      assert recs[i] in recs;
      assert ReadFrom(recs[i], inflight, todo);
      var l :| l in inflight && l !in todo && inflight[l] == recs[i];
    }
    forall r ensures r in more <==> ReadFrom(r, inflight, rest) {
      if r in recs {
        assert ReadFrom(r, inflight, todo);
        var l :| l in inflight && l !in todo && inflight[l] == r;
        assert l !in rest;
      }
      if ReadFrom(r, inflight, rest) {
        var l :| l in inflight && l !in rest && inflight[l] == r;
        assert l != k ==> ReadFrom(r, inflight, todo);
      }
    }
  }

  /** Reads every stored record. */
  method ReadAll(store: Store) returns (recs: seq<Record>)
    requires store.Valid()
    ensures Lists(recs, store.inflight)
  {
    recs := [];
    var todo := store.inflight.Keys;
    while todo != {}
      invariant todo <= store.inflight.Keys && ReadSoFar(recs, store.inflight, todo)
      decreases |todo|
    {
      var k :| k in todo;
      ReadMore(recs, store.order, store.inflight, todo, k);
      recs := recs + [store.inflight[k]];
      todo := todo - {k};
    }
    forall r ensures r in recs <==> r in store.inflight.Values {
      assert r in recs <==> ReadFrom(r, store.inflight, {});
    }
  }

  lemma {:induction false} NumbersDiffer(order: seq<Key>, inflight: map<Key, Record>)
    requires Queue(order, inflight)
    ensures forall k, l :: k in inflight && l in inflight && k != l ==> inflight[k].seqNo != inflight[l].seqNo
  {
    forall k, l | k in inflight && l in inflight && k != l ensures inflight[k].seqNo != inflight[l].seqNo {
      assert k in order && l in order;
      var i :| 0 <= i < |order| && order[i] == k;
      var j :| 0 <= j < |order| && order[j] == l;
      assert Number(inflight, order[i]) != Number(inflight, order[j]);
    }
  }

  /** After a restart: each client's replay list is its surviving messages in the order
      they were first queued, clamped. */
  method StoredInflightMessages(store: Store, now: int) returns (out: seq<Record>)
    requires store.Valid()
    modifies store
    ensures store.Valid()
    ensures forall k :: k in store.inflight <==> k in old(store.inflight) && !Expired(old(store.inflight)[k], now)
    ensures store.order == Without(old(store.order), old(store.inflight).Keys - store.inflight.Keys)
    ensures forall c :: OfClient(out, c) == Clamp(OfClient(InOrder(store.order, store.inflight), c))
  {
    store.PruneExpired(now);
    var recs := ReadAll(store);
    out := NormalizeInflightOrder(recs);
    forall c ensures OfClient(out, c) == Clamp(OfClient(InOrder(store.order, store.inflight), c)) {
      SortIsQueueOrder(recs, store.order, store.inflight, c);
    }
  }

  /** What a record is replayed by: the low 16 bits of its creation time. */
  function LowBits(r: Record): int {
    r.created % WINDOW
  }

  ghost predicate NonDecreasing(out: seq<Record>) {
    forall i, j :: 0 <= i < j < |out| ==> LowBits(out[i]) <= LowBits(out[j])
  }

  /** `out` is the records sorted by their low bits, ties in any order. */
  ghost predicate SortedByLowBits(recs: seq<Record>, out: seq<Record>) {
    multiset(out) == multiset(recs) && NonDecreasing(out)
  }

  /** Any sort by the low bits leaves the records as they are. */
  ghost predicate KeptByLowBits(recs: seq<Record>) {
    forall out :: SortedByLowBits(recs, out) ==> out == recs
  }

  ghost predicate LowBitsRise(recs: seq<Record>) {
    forall i, j :: 0 <= i < j < |recs| ==> LowBits(recs[i]) < LowBits(recs[j])
  }

  /** Some sort by the low bits always exists. */
  lemma {:induction false} SortExists(recs: seq<Record>) returns (out: seq<Record>)
    ensures SortedByLowBits(recs, out)
    decreases |recs|
  {
    hide LowBits;
    if recs == [] {
      out := [];
    } else {
      var n := |recs| - 1;
      var front := SortExists(recs[..n]);
      out := InsertExists(front, recs[n]);
      assert recs == recs[..n] + [recs[n]];
    }
  }

  lemma {:induction false} InsertExists(sorted: seq<Record>, r: Record) returns (out: seq<Record>)
    requires NonDecreasing(sorted)
    ensures SortedByLowBits(sorted + [r], out)
    decreases |sorted|
  {
    hide LowBits;
    var n := |sorted| - 1;
    if sorted == [] || LowBits(sorted[n]) <= LowBits(r) {
      out := sorted + [r];
    } else {
      var front := InsertExists(sorted[..n], r);
      out := front + [sorted[n]];
      assert sorted == sorted[..n] + [sorted[n]];
      forall i | 0 <= i < |front| ensures LowBits(front[i]) <= LowBits(sorted[n]) {
        assert front[i] in multiset(sorted[..n] + [r]);
        assert front[i] in sorted[..n] || front[i] == r;
      }
    }
  }

  /** Sorted records end with the one that has the highest low bits. */
  lemma {:induction false} HighestLast(recs: seq<Record>, out: seq<Record>)
    requires LowBitsRise(recs) && SortedByLowBits(recs, out) && recs != []
    ensures |out| == |recs| && out[|recs| - 1] == recs[|recs| - 1]
  {
    hide LowBits;
    assert |multiset(out)| == |out| && |multiset(recs)| == |recs|;
    var n := |recs| - 1;
    assert out[n] in multiset(recs) && recs[n] in multiset(out);
    var i :| 0 <= i < |recs| && recs[i] == out[n];
    var j :| 0 <= j < |out| && out[j] == recs[n];
    assert i == n;
  }

  lemma {:induction false} DropLast(s: seq<Record>)
    requires s != []
    ensures s == s[..|s| - 1] + [s[|s| - 1]]
    ensures multiset(s[..|s| - 1]) == multiset(s) - multiset{s[|s| - 1]}
  {
    assert s == s[..|s| - 1] + [s[|s| - 1]];
  }

  lemma {:induction false} EqualFronts(recs: seq<Record>, out: seq<Record>)
    requires multiset(out) == multiset(recs) && recs != [] && out != []
    requires out[|out| - 1] == recs[|recs| - 1]
    ensures multiset(out[..|out| - 1]) == multiset(recs[..|recs| - 1])
  {
    DropLast(recs);
    DropLast(out);
  }

  lemma {:induction false} FrontsSorted(recs: seq<Record>, out: seq<Record>)
    requires LowBitsRise(recs) && SortedByLowBits(recs, out)
    requires recs != [] && |out| == |recs| && out[|recs| - 1] == recs[|recs| - 1]
    ensures LowBitsRise(recs[..|recs| - 1]) && SortedByLowBits(recs[..|recs| - 1], out[..|recs| - 1])
  {
    hide LowBits;
    EqualFronts(recs, out);
  }

  /** Records whose low bits rise have one sort, themselves. */
  lemma {:induction false} RisingIsKept(recs: seq<Record>, out: seq<Record>)
    requires LowBitsRise(recs) && SortedByLowBits(recs, out)
    ensures out == recs
    decreases |recs|
  {
    hide LowBits, LowBitsRise, SortedByLowBits;
    if recs == [] {
      NothingSorted(out);
    } else {
      HighestLast(recs, out);
      FrontsSorted(recs, out);
      var n := |recs| - 1;
      RisingIsKept(recs[..n], out[..n]);
      assert recs == recs[..n] + [recs[n]] && out == out[..n] + [out[n]];
    }
  }

  lemma {:induction false} NothingSorted(out: seq<Record>)
    requires SortedByLowBits([], out)
    ensures out == []
  {
    hide LowBits;
    assert |multiset(out)| == |out|;
  }

  lemma {:induction false} SwapPermutes(recs: seq<Record>, i: nat)
    requires i + 1 < |recs|
    ensures multiset(recs[i := recs[i + 1]][i + 1 := recs[i]]) == multiset(recs)
  {
    var half := recs[i := recs[i + 1]];
    assert multiset(half) == multiset(recs) - multiset{recs[i]} + multiset{recs[i + 1]};
    assert half[i + 1] == recs[i + 1] && recs[i] in multiset(recs);
    assert multiset(half[i + 1 := recs[i]]) == multiset(half) - multiset{recs[i + 1]} + multiset{recs[i]};
  }

  /** Swapping two neighbours with the same low bits gives another sort. */
  lemma {:induction false} TieSwaps(recs: seq<Record>, i: nat) returns (out: seq<Record>)
    requires i + 1 < |recs| && LowBits(recs[i]) == LowBits(recs[i + 1]) && recs[i] != recs[i + 1]
    requires NonDecreasing(recs)
    ensures SortedByLowBits(recs, out) && out != recs
  {
    hide LowBits;
    out := recs[i := recs[i + 1]][i + 1 := recs[i]];
    SwapPermutes(recs, i);
    assert out[i] != recs[i];
    assert forall x :: 0 <= x < |recs| ==> LowBits(out[x]) == LowBits(recs[x]);
  }

  /** Distinct records come through every sort by their low bits unchanged exactly when
      those rise. */
  lemma {:induction false} KeptIffRising(recs: seq<Record>)
    requires forall i, j :: 0 <= i < j < |recs| ==> recs[i] != recs[j]
    ensures KeptByLowBits(recs) <==> LowBitsRise(recs)
  {
    hide LowBits;
    if LowBitsRise(recs) {
      forall out | SortedByLowBits(recs, out) ensures out == recs {
        RisingIsKept(recs, out);
      }
    } else if NonDecreasing(recs) {
      var i, j :| 0 <= i < j < |recs| && LowBits(recs[i]) >= LowBits(recs[j]);
      assert LowBits(recs[i]) <= LowBits(recs[i + 1]);
      assert i + 1 < j ==> LowBits(recs[i + 1]) <= LowBits(recs[j]);
      var out := TieSwaps(recs, i);
    } else {
      var out := SortExists(recs);
      assert out != recs;
    }
  }

  lemma {:induction false} OneWindow(a: int, b: int)
    requires a < b < a + WINDOW
    ensures a % WINDOW < b % WINDOW <==> a / WINDOW == b / WINDOW
  {
    assert a == WINDOW * (a / WINDOW) + a % WINDOW && b == WINDOW * (b / WINDOW) + b % WINDOW;
  }

  /** The broker replays by the low 16 bits of the creation time. A clamped queue comes
      through that sort in its order exactly when the low bits rise along it; a queue
      that spans less than 65536 seconds, exactly when it lies within one window. */
  lemma {:induction false} ReplayOrderKeptIff(group: seq<Record>)
    ensures KeptByLowBits(Clamp(group)) <==> LowBitsRise(Clamp(group))
    ensures |group| >= 2 && Clamp(group)[|group| - 1].created < Clamp(group)[0].created + WINDOW ==>
              (KeptByLowBits(Clamp(group)) <==>
               Clamp(group)[0].created / WINDOW == Clamp(group)[|group| - 1].created / WINDOW)
  {
    var out, n := Clamp(group), |group| - 1;
    ClampFacts(group);
    assert forall i, j :: 0 <= i < j < |out| ==> out[i].created < out[j].created;
    KeptIffRising(out);
    if |group| >= 2 && out[n].created < out[0].created + WINDOW {
      RisingIffOneWindow(out);
    }
  }

  lemma {:induction false} RisingIffOneWindow(out: seq<Record>)
    requires |out| >= 2 && out[|out| - 1].created < out[0].created + WINDOW
    requires forall i, j :: 0 <= i < j < |out| ==> out[i].created < out[j].created
    ensures LowBitsRise(out) <==> out[0].created / WINDOW == out[|out| - 1].created / WINDOW
  {
    var n := |out| - 1;
    OneWindow(out[0].created, out[n].created);
    if out[0].created / WINDOW == out[n].created / WINDOW {
      forall i, j | 0 <= i < j < |out| ensures LowBits(out[i]) < LowBits(out[j]) {
        Between(out[0].created, out[i].created, out[j].created, out[n].created);
        OneWindow(out[i].created, out[j].created);
      }
    }
  }

  lemma {:induction false} Between(a: int, x: int, y: int, b: int)
    requires a <= x < y <= b && a / WINDOW == b / WINDOW
    ensures x / WINDOW == y / WINDOW
  {
  }

  /** Two messages queued a second apart across a window boundary swap. */
  lemma {:induction false} BoundarySwaps(r: Record)
    ensures var group := [r.(created := 65535), r.(created := 65536)];
            Clamp(group) == group && SortedByLowBits(group, [group[1], group[0]]) && !KeptByLowBits(Clamp(group))
  {
    var group := [r.(created := 65535), r.(created := 65536)];
    assert group[..1] == [group[0]] && group[..1][..0] == [];
    assert Clamp(group[..1]) == [group[0]];
    assert Clamp(group) == group;
    assert LowBits(group[0]) == 65535 && LowBits(group[1]) == 0;
    assert group[1] != group[0];
  }
}
