/** One shard of the ingestion engine: the loop that takes messages off its channel in
    order, validates, batches, flushes and acknowledges them. */
module EngineShard {
  import opened Wrappers
  import opened EngineOps
  import opened EnginePrev
  import opened EngineBatch

  /** What the validation pipeline makes of a message. `Handler` covers introspection,
      control and capabilities messages; `keep` is the list a producer/properties
      purge leaves in place. */
  datatype Intent =
    | Invalid
    | Unhandled
    | Handler(wellFormed: bool, keep: Option<set<PropertyRef>>)
    | Data(ifaceId: int, path: string, unset: bool, json: Option<Json>, typed: bool, ts: int)

  datatype Inbound = Inbound(realm: int, device: int, intent: Intent)

  /** The operation of a data message, before change tracking. */
  function OpOf(id: nat, m: Inbound, sc: Schema): (op: PersistOp)
    requires m.intent.Data?
    ensures WellKinded(op, sc) && !op.tracked && op.id == id
  {
    var d := m.intent;
    var kind :=
      if d.ifaceId in sc.properties then (if d.unset then PropertyUnset else PropertySet)
      else if d.ifaceId in sc.objects then Object
      else Individual;
    var json := if kind.PropertyUnset? then Some("null") else d.json;
    PersistOp(id, kind, PrevKey(m.realm, m.device, d.ifaceId, d.path), json, d.typed, d.ts, false, false, "")
  }

  function ResyncOf(m: Inbound, sc: Schema): Resync
    requires m.intent.Handler? && m.intent.keep.Some?
  {
    Resync(m.realm, m.device, sc.deviceOwned, m.intent.keep.value)
  }

  /** An operation is the one its message asks for; only the snapshot was added. */
  ghost predicate From(op: PersistOp, arrivals: seq<Inbound>, sc: Schema) {
    && op.id < |arrivals| && arrivals[op.id].intent.Data?
    && op == OpOf(op.id, arrivals[op.id], sc).(tracked := op.tracked, prevExists := op.prevExists, prev := op.prev)
  }

  /** A watched operation goes untracked only when its lookup failed. */
  ghost predicate Captured(op: PersistOp, dark: set<nat>, sc: Schema) {
    Trackable(op, sc) && op.json.Some? && op.id !in dark ==> op.tracked
  }

  /** What a taken message leaves in the history: data an accepted operation, unless
      shutdown came before its device state was loaded; a handled purge its resync;
      everything else nothing. */
  ghost predicate Leaves(
    e: Option<Entry>, id: nat, arrivals: seq<Inbound>, fate: map<nat, Fate>, dark: set<nat>, sc: Schema)
    requires id < |arrivals|
  {
    var m := arrivals[id];
    match m.intent
    case Data(_, _, _, _, _, _) =>
      if e.Some? then e.value.Accept? && e.value.op.id == id && From(e.value.op, arrivals, sc) &&
          Captured(e.value.op, dark, sc)
      else id in fate && fate[id] == Abandoned
    case Handler(_, keep) =>
      id in fate && e == if fate[id] == Handled && keep.Some? then Some(Purge(ResyncOf(m, sc))) else None
    case _ => id in fate && e == None
  }

  /** The log has what every taken message left. */
  ghost predicate Logged(
    log: seq<Option<Entry>>, taken: nat, arrivals: seq<Inbound>, fate: map<nat, Fate>, dark: set<nat>, sc: Schema)
    requires taken <= |arrivals|
  {
    |log| == taken && forall id {:trigger log[id]} :: 0 <= id < |log| ==> Leaves(log[id], id, arrivals, fate, dark, sc)
  }

  lemma {:induction false} LoggedStable(
    log: seq<Option<Entry>>, taken: nat, arrivals: seq<Inbound>, before: map<nat, Fate>, now: map<nat, Fate>,
    dark: set<nat>, sc: Schema)
    requires taken <= |arrivals| && Logged(log, taken, arrivals, before, dark, sc)
    requires forall id :: id in before ==> id in now && now[id] == before[id]
    ensures Logged(log, taken, arrivals, now, dark, sc)
  {
    forall id | 0 <= id < |log| ensures Leaves(log[id], id, arrivals, now, dark, sc) {
      assert Leaves(log[id], id, arrivals, before, dark, sc);
    }
  }

  lemma {:induction false} LoggedNext(
    log: seq<Option<Entry>>, e: Option<Entry>, taken: nat, arrivals: seq<Inbound>, fate: map<nat, Fate>,
    dark: set<nat>, sc: Schema)
    requires taken < |arrivals| && Logged(log, taken, arrivals, fate, dark, sc)
    requires Leaves(e, taken, arrivals, fate, dark, sc)
    ensures Logged(log + [e], taken + 1, arrivals, fate, dark, sc)
  {
  }

  lemma {:induction false} LoggedMore(
    log: seq<Option<Entry>>, taken: nat, arrivals: seq<Inbound>, more: seq<Inbound>, fate: map<nat, Fate>,
    dark: set<nat>, sc: Schema)
    requires taken <= |arrivals| && Logged(log, taken, arrivals, fate, dark, sc)
    ensures Logged(log, taken, arrivals + more, fate, dark, sc)
  {
    forall id | 0 <= id < |log| ensures Leaves(log[id], id, arrivals + more, fate, dark, sc) {
      assert Leaves(log[id], id, arrivals, fate, dark, sc) && (arrivals + more)[id] == arrivals[id];
    }
  }

  /** What the shard did, in order. */
  ghost function Deeds(log: seq<Option<Entry>>): seq<Entry> {
    if log == [] then [] else
    var rest, e := Deeds(log[..|log| - 1]), log[|log| - 1];
    if e.Some? then rest + [e.value] else rest
  }

  lemma {:induction false} DeedsNext(log: seq<Option<Entry>>, e: Option<Entry>)
    ensures Deeds(log + [e]) == if e.Some? then Deeds(log) + [e.value] else Deeds(log)
  {
    assert (log + [e])[..|log|] == log;
  }

  lemma {:induction false} DeedsMember(log: seq<Option<Entry>>, i: nat) returns (id: nat)
    requires i < |Deeds(log)|
    ensures id < |log| && log[id] == Some(Deeds(log)[i])
    decreases |log|
  {
    var n := |log| - 1;
    if i < |Deeds(log[..n])| {
      id := DeedsMember(log[..n], i);
    } else {
      id := n;
    }
  }

  /** The operations of a history, in acceptance order. */
  ghost function Operations(history: seq<Entry>): seq<PersistOp> {
    if history == [] then [] else
    var rest, e := Operations(history[..|history| - 1]), history[|history| - 1];
    if e.Accept? then rest + [e.op] else rest
  }

  /** The books of a faithful run: nothing failed so far, so the store plus the pending
      batch is exactly what the serial processor has, every snapshot is the serial
      one, and the observers have seen all but the pending operations. */
  ghost predicate Serial(
    start: World, history: seq<Entry>, store: World, observed: seq<PersistOp>,
    ops: seq<PersistOp>, pending: map<PrevKey, PrevSnap>, refused: set<nat>, sc: Schema)
  {
    && Chained(store, ops, pending, sc)
    && PrevFaithful(start, history, sc)
    && Replay(start, history) == WorldAfter(store, ops)
    && Operations(history) == observed + ops
    && (forall i :: 0 <= i < |ops| ==> Accepted(ops[i], refused))
  }

  lemma {:induction false} CommittedSublist(observed: seq<PersistOp>, ops: seq<PersistOp>, fate: map<nat, Fate>)
    requires Increasing(observed + ops)
    ensures Increasing(observed + CommittedOf(ops, fate))
    ensures forall i :: 0 <= i < |CommittedOf(ops, fate)| ==>
              CommittedOf(ops, fate)[i] in ops && CommittedOf(ops, fate)[i].id in fate &&
              fate[CommittedOf(ops, fate)[i].id] == Committed
  {
    if ops != [] {
      var init, op := ops[..|ops| - 1], ops[|ops| - 1];
      assert observed + ops == observed + init + [op];
      assert forall i :: 0 <= i < |observed + init| ==> (observed + ops)[i] == (observed + init)[i];
      CommittedSublist(observed, init, fate);
      forall i | 0 <= i < |observed + CommittedOf(init, fate)|
        ensures (observed + CommittedOf(init, fate))[i].id < op.id
      {
        var x := (observed + CommittedOf(init, fate))[i];
        assert x in observed + init;
        var j :| 0 <= j < |observed + init| && (observed + init)[j] == x;
        assert (observed + ops)[j] == x && (observed + ops)[|observed + init|] == op;
      }
      assert observed + (CommittedOf(init, fate) + [op]) == observed + CommittedOf(init, fate) + [op];
    }
  }

  /** The next message joins the pending operations. */
  lemma {:induction false} AccountedJoin(
    ops: seq<PersistOp>, observed: seq<PersistOp>, fate: map<nat, Fate>, op: PersistOp, taken: nat,
    arrivals: seq<Inbound>, refused: set<nat>, sc: Schema)
    requires taken < |arrivals| && Accounted(ops, observed, fate, taken, arrivals, refused, sc)
    requires op.id == taken && From(op, arrivals, sc)
    ensures Accounted(ops + [op], observed, fate, taken + 1, arrivals, refused, sc)
  {
    IncreasingGrows(observed, ops, op);
    IdsAppend(ops, [op]);
    assert [op][0].id in Ids([op]);
  }

  /** A message that arrives does not change the account of those taken. */
  lemma {:induction false} AccountedMore(
    ops: seq<PersistOp>, observed: seq<PersistOp>, fate: map<nat, Fate>, taken: nat, arrivals: seq<Inbound>,
    more: seq<Inbound>, refused: set<nat>, sc: Schema)
    requires taken <= |arrivals| && Accounted(ops, observed, fate, taken, arrivals, refused, sc)
    ensures Accounted(ops, observed, fate, taken, arrivals + more, refused, sc)
    ensures (arrivals + more)[taken..] == arrivals[taken..] + more
  {
    assert forall id :: 0 <= id < |arrivals| ==> (arrivals + more)[id] == arrivals[id];
  }

  lemma {:induction false} NextInLine(arrivals: seq<Inbound>, taken: nat)
    requires taken < |arrivals|
    ensures arrivals[taken..][0] == arrivals[taken] && arrivals[taken..][1..] == arrivals[taken + 1..]
  {
  }

  lemma {:induction false} IncreasingSuffix(a: seq<PersistOp>, b: seq<PersistOp>)
    requires Increasing(a + b)
    ensures Increasing(b)
  {
    assert forall i :: 0 <= i < |b| ==> (a + b)[|a| + i] == b[i];
  }

  lemma {:induction false} IncreasingGrows(a: seq<PersistOp>, b: seq<PersistOp>, op: PersistOp)
    requires Increasing(a + b)
    requires forall i :: 0 <= i < |a| ==> a[i].id < op.id
    requires forall i :: 0 <= i < |b| ==> b[i].id < op.id
    ensures Increasing(a + (b + [op]))
  {
    assert a + (b + [op]) == (a + b) + [op];
  }

  lemma {:induction false} AllLive(ops: seq<PersistOp>, refused: set<nat>)
    requires forall i :: 0 <= i < |ops| ==> Accepted(ops[i], refused)
    ensures Live(ops, refused) == ops
  {
    if ops != [] {
      AllLive(ops[..|ops| - 1], refused);
    }
  }

  /** A flush that abandons nothing turns the pending part of a faithful run into
      store state. */
  lemma {:induction false} SerialFlush(
    start: World, history: seq<Entry>, ops: seq<PersistOp>, pending: map<PrevKey, PrevSnap>,
    refused: set<nat>, sc: Schema, s: Books, t: Books)
    requires Serial(start, history, World(s.props, s.individual, s.objects), s.observed, ops, pending, refused, sc)
    requires Settles(ops, refused, s, t) && NoneAbandoned(ops, t.fate)
    ensures Serial(start, history, World(t.props, t.individual, t.objects), t.observed, [], map[], refused, sc)
  {
    hide PrevFaithful, Replay;
    CommittedIsLive(ops, t.fate, refused);
    AllLive(ops, refused);
  }

  /** Accepting one operation extends a faithful run. */
  lemma {:induction false} SerialAccept(
    start: World, history: seq<Entry>, store: World, observed: seq<PersistOp>, ops: seq<PersistOp>,
    before: map<PrevKey, PrevSnap>, op: PersistOp, after: map<PrevKey, PrevSnap>, refused: set<nat>, sc: Schema)
    requires Serial(start, history, store, observed, ops, before, refused, sc)
    requires WellKinded(op, sc) && Accepted(op, refused)
    requires Chained(store, ops + [op], after, sc)
    requires Trackable(op, sc) && Ordered(WorldAfter(store, ops), op.key, sc) ==>
               SamePrev(op, Reading(WorldAfter(store, ops), op.key, sc))
    ensures Serial(start, history + [Accept(op)], store, observed, ops + [op], after, refused, sc)
  {
    PrevFaithfulGrows(start, history, Accept(op), sc);
    WorldAfterAppend(store, ops, op);
    assert (history + [Accept(op)])[..|history|] == history;
    assert observed + (ops + [op]) == observed + ops + [op];
  }

  /** A purge runs on an empty batch and extends a faithful run. */
  lemma {:induction false} SerialPurge(
    start: World, history: seq<Entry>, store: World, observed: seq<PersistOp>, r: Resync, refused: set<nat>, sc: Schema)
    requires Serial(start, history, store, observed, [], map[], refused, sc)
    ensures Serial(start, history + [Purge(r)], store.(props := Purged(store.props, r)), observed, [], map[],
        refused, sc)
  {
    PrevFaithfulGrows(start, history, Purge(r), sc);
    assert (history + [Purge(r)])[..|history|] == history;
    assert WorldAfter(store, []) == store;
  }

  /** Nothing went wrong with an operation: the store takes it, its lookup succeeded if
      it needed one, and shutdown did not cut it off. */
  ghost predicate Smooth(op: PersistOp, fate: map<nat, Fate>, refused: set<nat>, sc: Schema) {
    && Accepted(op, refused) && (Trackable(op, sc) ==> op.tracked)
    && (op.id in fate ==> fate[op.id] != Abandoned)
  }

  ghost predicate Blameless(history: seq<Entry>, fate: map<nat, Fate>, refused: set<nat>, sc: Schema) {
    forall i {:trigger history[i]} :: 0 <= i < |history| && history[i].Accept? ==>
      Smooth(history[i].op, fate, refused, sc)
  }

  /** A run to which nothing happened refines the serial processor. */
  ghost predicate Refines(
    start: World, history: seq<Entry>, fate: map<nat, Fate>, store: World, observed: seq<PersistOp>,
    ops: seq<PersistOp>, pending: map<PrevKey, PrevSnap>, refused: set<nat>, sc: Schema)
  {
    Blameless(history, fate, refused, sc) ==> Serial(start, history, store, observed, ops, pending, refused, sc)
  }

  /** A history is no more blameless later than it was before. */
  lemma {:induction false} BlamelessBefore(
    history: seq<Entry>, more: seq<Entry>, before: map<nat, Fate>, now: map<nat, Fate>, refused: set<nat>, sc: Schema)
    requires Blameless(history + more, now, refused, sc)
    requires forall id :: id in before ==> id in now && now[id] == before[id]
    ensures Blameless(history, before, refused, sc)
  {
    forall i | 0 <= i < |history| && history[i].Accept? ensures Smooth(history[i].op, before, refused, sc) {
      assert (history + more)[i] == history[i];
    }
  }

  lemma {:induction false} RefinesStable(
    start: World, history: seq<Entry>, before: map<nat, Fate>, now: map<nat, Fate>, store: World,
    observed: seq<PersistOp>, ops: seq<PersistOp>, pending: map<PrevKey, PrevSnap>, refused: set<nat>, sc: Schema)
    requires Refines(start, history, before, store, observed, ops, pending, refused, sc)
    requires forall id :: id in before ==> id in now && now[id] == before[id]
    ensures Refines(start, history, now, store, observed, ops, pending, refused, sc)
  {
    if Blameless(history, now, refused, sc) {
      assert history + [] == history;
      BlamelessBefore(history, [], before, now, refused, sc);
    }
  }

  lemma {:induction false} OperationsMember(history: seq<Entry>, op: PersistOp) returns (i: nat)
    requires op in Operations(history)
    ensures i < |history| && history[i] == Accept(op)
    decreases |history|
  {
    var n := |history| - 1;
    if op in Operations(history[..n]) {
      i := OperationsMember(history[..n], op);
    } else {
      i := n;
    }
  }

  /** In a blameless history none of the pending operations is abandoned. */
  lemma {:induction false} BlamelessPending(
    history: seq<Entry>, observed: seq<PersistOp>, ops: seq<PersistOp>, fate: map<nat, Fate>, refused: set<nat>,
    sc: Schema)
    requires Blameless(history, fate, refused, sc) && Operations(history) == observed + ops
    requires forall i :: 0 <= i < |ops| ==> ops[i].id in fate
    ensures NoneAbandoned(ops, fate)
  {
    forall i | 0 <= i < |ops| ensures fate[ops[i].id] != Abandoned {
      assert (observed + ops)[|observed| + i] == ops[i];
      var k := OperationsMember(history, ops[i]);
    }
  }

  lemma {:induction false} RefinesFlush(
    start: World, history: seq<Entry>, ops: seq<PersistOp>, pending: map<PrevKey, PrevSnap>,
    refused: set<nat>, sc: Schema, s: Books, t: Books)
    requires Refines(start, history, s.fate, World(s.props, s.individual, s.objects), s.observed, ops, pending,
                     refused, sc)
    requires Settles(ops, refused, s, t)
    ensures Refines(start, history, t.fate, World(t.props, t.individual, t.objects), t.observed, [], map[], refused, sc)
  {
    if Blameless(history, t.fate, refused, sc) {
      assert history + [] == history;
      BlamelessBefore(history, [], s.fate, t.fate, refused, sc);
      BlamelessPending(history, s.observed, ops, t.fate, refused, sc);
      SerialFlush(start, history, ops, pending, refused, sc, s, t);
    }
  }

  lemma {:induction false} RefinesPurge(
    start: World, history: seq<Entry>, fate: map<nat, Fate>, store: World, observed: seq<PersistOp>, r: Resync,
    refused: set<nat>, sc: Schema)
    requires Refines(start, history, fate, store, observed, [], map[], refused, sc)
    ensures Refines(start, history + [Purge(r)], fate, store.(props := Purged(store.props, r)),
                    observed, [], map[], refused, sc)
  {
    if Blameless(history + [Purge(r)], fate, refused, sc) {
      BlamelessBefore(history, [Purge(r)], fate, fate, refused, sc);
      SerialPurge(start, history, store, observed, r, refused, sc);
    }
  }

  /** The operation as the capture leaves it: a snapshot if it is watched and its lookup
      succeeds. */
  function Track(op: PersistOp, pending: map<PrevKey, PrevSnap>, store: World, dark: set<nat>, sc: Schema): PersistOp {
    if Trackable(op, sc) && op.json.Some? && (op.key in pending || op.id !in dark)
    then Snapshot(op, pending, store, sc) else op
  }

  lemma {:induction false} TrackedFrom(
    id: nat, arrivals: seq<Inbound>, pending: map<PrevKey, PrevSnap>, store: World, dark: set<nat>, sc: Schema)
    requires id < |arrivals| && arrivals[id].intent.Data?
    ensures var op := Track(OpOf(id, arrivals[id], sc), pending, store, dark, sc);
            op.id == id && From(op, arrivals, sc) && Captured(op, dark, sc)
  {
  }

  lemma {:induction false} RefinesAccept(
    start: World, history: seq<Entry>, fate: map<nat, Fate>, store: World, observed: seq<PersistOp>,
    ops: seq<PersistOp>,
    before: map<PrevKey, PrevSnap>, op: PersistOp, after: map<PrevKey, PrevSnap>, dark: set<nat>, refused: set<nat>,
    sc: Schema)
    requires Refines(start, history, fate, store, observed, ops, before, refused, sc)
    requires WellKinded(op, sc) && !op.tracked
    requires Track(op, before, store, dark, sc).tracked ==> after == ChainAfter(before, op, sc)
    requires !Trackable(op, sc) ==> after == before
    ensures Refines(start, history + [Accept(Track(op, before, store, dark, sc))], fate, store, observed,
                    ops + [Track(op, before, store, dark, sc)], after, refused, sc)
  {
    var x := Track(op, before, store, dark, sc);
    var next := history + [Accept(x)];
    if Blameless(next, fate, refused, sc) {
      BlamelessBefore(history, [Accept(x)], fate, fate, refused, sc);
      assert next[|history|] == Accept(x) && Smooth(x, fate, refused, sc);
      ChainGrows(store, ops, x, before, sc);
      if Trackable(op, sc) && Ordered(WorldAfter(store, ops), op.key, sc) {
        SnapshotIsSerial(store, ops, before, op, sc);
      }
      SerialAccept(start, history, store, observed, ops, before, x, after, refused, sc);
    }
  }

  /** A message ends as its kind says: invalid ones are rejected, unhandled ones consumed,
      handlers run unless malformed, refused or cut short, and a data message ends as
      its operation explains. */
  ghost predicate FateFits(id: nat, m: Inbound, fate: Fate, refused: set<nat>, sc: Schema) {
    match m.intent
    case Invalid => fate == Rejected
    case Unhandled => fate == Handled
    case Handler(wellFormed, _) =>
      if wellFormed then fate == Handled || fate == Abandoned || (fate == Refused && id in refused)
      else fate == Rejected
    case Data(_, _, _, _, _, _) => Explains(fate, OpOf(id, m, sc), refused)
  }

  /** Pending and committed operations stem from taken messages in arrival order; every
      taken message is settled or pending, never both; each fate fits its message, and
      what is committed has been observed. */
  ghost predicate Accounted(
    ops: seq<PersistOp>, observed: seq<PersistOp>, fate: map<nat, Fate>, taken: nat, arrivals: seq<Inbound>,
    refused: set<nat>, sc: Schema)
    requires taken <= |arrivals|
  {
    && (forall id {:trigger fate[id]} :: id in fate ==> id < taken && FateFits(id, arrivals[id], fate[id], refused, sc))
    && (forall id {:trigger fate[id]} :: id in fate && fate[id] == Committed ==> id in Ids(observed))
    && Increasing(observed + ops)
    && (forall i :: 0 <= i < |ops| ==> ops[i].id < taken && ops[i].id !in fate && From(ops[i], arrivals, sc))
    && (forall i :: 0 <= i < |observed| ==>
          observed[i].id in fate && fate[observed[i].id] == Committed && From(observed[i], arrivals, sc))
    && (forall id :: id in fate ==> id < taken)
    && (forall id: nat :: id < taken ==> id in fate || id in Ids(ops))
  }

  /** Settling the pending operations keeps the account. */
  lemma {:induction false} AccountedFlush(
    ops: seq<PersistOp>, observed: seq<PersistOp>, fate: map<nat, Fate>, now: map<nat, Fate>, refused: set<nat>,
    taken: nat, arrivals: seq<Inbound>, sc: Schema)
    requires taken <= |arrivals| && Accounted(ops, observed, fate, taken, arrivals, refused, sc) &&
        SettlesFates(ops, refused, fate, now)
    ensures Accounted([], observed + CommittedOf(ops, now), now, taken, arrivals, refused, sc)
  {
    CommittedSublist(observed, ops, now);
    var done := CommittedOf(ops, now);
    assert observed + done + [] == observed + done;
    forall i | 0 <= i < |observed + done|
      ensures (observed + done)[i].id in now && now[(observed + done)[i].id] == Committed &&
          From((observed + done)[i], arrivals, sc)
    {
      if i >= |observed| {
        var x := done[i - |observed|];
        assert x in ops;
      }
    }
    forall id | id in now ensures id < taken && FateFits(id, arrivals[id], now[id], refused, sc) {
      NewFateFits(ops, fate, now, refused, taken, arrivals, sc, id);
    }
    forall id | id in now && now[id] == Committed ensures id in Ids(observed + done) {
      IdsAppend(observed, done);
      if id !in fate {
        CommittedIsListed(ops, now, id);
      }
    }
  }

  /** Settling the next message on its own keeps the account. */
  lemma {:induction false} AccountedTake(
    ops: seq<PersistOp>, observed: seq<PersistOp>, fate: map<nat, Fate>, why: Fate, refused: set<nat>,
    taken: nat, arrivals: seq<Inbound>, sc: Schema)
    requires taken < |arrivals| && Accounted(ops, observed, fate, taken, arrivals, refused, sc)
    requires why != Committed && FateFits(taken, arrivals[taken], why, refused, sc)
    ensures Accounted(ops, observed, fate[taken := why], taken + 1, arrivals, refused, sc)
  {
  }

  lemma {:induction false} NewFateFits(
    ops: seq<PersistOp>, fate: map<nat, Fate>, now: map<nat, Fate>, refused: set<nat>,
    taken: nat, arrivals: seq<Inbound>, sc: Schema, id: nat)
    requires taken <= |arrivals| && SettlesFates(ops, refused, fate, now) && id in now
    requires forall i :: 0 <= i < |ops| ==> ops[i].id < taken && From(ops[i], arrivals, sc)
    requires id in fate ==> id < taken && FateFits(id, arrivals[id], fate[id], refused, sc)
    ensures id < taken && FateFits(id, arrivals[id], now[id], refused, sc)
  {
    if id !in fate {
      assert id in Ids(ops);
      var i :| 0 <= i < |ops| && ops[i].id == id;
      assert From(ops[i], arrivals, sc) && Explains(now[id], ops[i], refused);
    }
  }

  lemma {:induction false} CommittedIsListed(ops: seq<PersistOp>, fate: map<nat, Fate>, id: nat)
    requires id in Ids(ops) && id in fate && fate[id] == Committed
    ensures id in Ids(CommittedOf(ops, fate))
    decreases |ops|
  {
    var n := |ops| - 1;
    var op, front := ops[n], ops[..n];
    assert ops == front + [op];
    IdsAppend(front, [op]);
    assert Ids([op]) == {[op][0].id};
    if id in Ids(front) {
      CommittedIsListed(front, fate, id);
    }
    if op.id in fate && fate[op.id] == Committed {
      IdsAppend(CommittedOf(front, fate), [op]);
    }
  }

  /** The property table after a handler message came to its fate. */
  ghost function PurgedBy(m: Inbound, fate: Fate, props: Properties, sc: Schema): Properties
    requires m.intent.Handler?
  {
    if fate == Handled && m.intent.keep.Some? then Purged(props, ResyncOf(m, sc)) else props
  }

  /** What reaches the shard loop: a message from a submitter, the loop taking the
      next message, the batch timer, the closed channel, or cancellation. */
  datatype Tick = Arrive(m: Inbound) | Receive | Timer | Closed | Cancel

  class Shard {
    const be: Backend
    const batch: Batcher
    const maxRows: nat
    const sc: Schema
    var queue: seq<Inbound>
    var taken: nat
    var armed: bool
    ghost const start: World
    ghost var arrivals: seq<Inbound>
    /** What each taken message did to the tables, if anything. */
    ghost var log: seq<Option<Entry>>

    ghost function Store(): World
      reads be`props, be`individual, be`objects
    {
      World(be.props, be.individual, be.objects)
    }

    ghost function History(): seq<Entry>
      reads this`log
    {
      Deeds(log)
    }

    /** Order and conservation: messages are taken in arrival order, each taken message
        is settled or pending and never both, committed operations were observed in
        arrival order, and the log says what every taken message did. */
    ghost predicate Orderly()
      reads this`queue, this`taken, this`arrivals, this`log
      reads batch`ops, batch`observed, batch`fate, batch`acks, batch`durable, batch`broken
    {
      && batch.be == be && maxRows > 0
      && batch.Ledger()
      && taken <= |arrivals| && queue == arrivals[taken..]
      && Accounted(batch.ops, batch.observed, batch.fate, taken, arrivals, be.refused, sc)
      && Logged(log, taken, arrivals, batch.fate, be.dark, sc)
    }

    /** Nothing is abandoned before shutdown. */
    ghost predicate Patient()
      reads batch`fate, be`stopping
    {
      forall id {:trigger batch.fate[id]} :: id in batch.fate && batch.fate[id] == Abandoned ==> be.stopping
    }

    /** The datastream tables hold the rows of the observed operations, once each. */
    ghost predicate Tabled()
      reads batch`observed, be`individual, be`objects
    {
      be.individual == RowsOf(batch.observed, Individual) && be.objects == RowsOf(batch.observed, Object)
    }

    ghost predicate Valid()
      reads this`queue, this`taken, this`arrivals, this`log, be`stopping, be`individual, be`objects
      reads batch`ops, batch`observed, batch`fate, batch`acks, batch`durable, batch`broken
    {
      Orderly() && Patient() && Tabled()
    }

    /** Unless something went wrong with an operation, the shard refines the serial
        processor. */
    ghost predicate Chain()
      reads this`log, be`props, be`individual, be`objects, batch`ops, batch`observed, batch`fate, batch`pendingPrev
    {
      Refines(start, History(), batch.fate, Store(), batch.observed, batch.ops, batch.pendingPrev, be.refused, sc)
    }

    constructor (refused: set<nat>, dark: set<nat>, props: Properties, script: seq<bool>, maxRows: nat, sc: Schema)
      requires maxRows > 0
      ensures Valid() && Chain() && Idle() && fresh(be) && fresh(batch)
      ensures be.refused == refused && be.dark == dark && start == World(props, [], []) && this.sc == sc
      ensures this.maxRows == maxRows && arrivals == [] && log == [] && !be.stopping
    {
      var backend := new Backend(refused, dark, props, script);
      be := backend;
      batch := new Batcher(backend);
      this.maxRows, this.sc := maxRows, sc;
      queue, taken, armed := [], 0, false;
      start, arrivals, log := World(props, [], []), [], [];
    }

    /** Captures the previous-value snapshot of an operation: from the chain of the
        unflushed batch, else from the store. A failed lookup leaves it untracked. */
    method TrackPrevious(op: PersistOp) returns (tracked: PersistOp)
      requires Valid() && WellKinded(op, sc) && !op.tracked
      modifies batch`pendingPrev
      ensures Valid() && tracked == Track(op, old(batch.pendingPrev), Store(), be.dark, sc)
      ensures batch.pendingPrev ==
              if tracked.tracked then ChainAfter(old(batch.pendingPrev), op, sc) else old(batch.pendingPrev)
    {
      tracked := op;
      if op.kind.Object? || op.key !in sc.watched || op.json.None? {
        return;
      }
      if op.key !in batch.pendingPrev && op.id in be.dark {
        return;
      }
      tracked := Snapshot(op, batch.pendingPrev, World(be.props, be.individual, be.objects), sc);
      batch.pendingPrev := batch.pendingPrev[op.key := PrevSnap(!op.kind.PropertyUnset?, op.json.value)];
    }

    /** Disarms the timer and flushes the batch. */
    method FlushShard()
      requires Valid() && Chain()
      modifies this`armed, batch, be
      ensures Valid() && Chain() && batch.ops == [] && batch.pendingPrev == map[] && !armed
      ensures old(be.stopping) ==> be.stopping
    {
      hide Refines, Accounted, Logged;
      armed := false;
      ghost var ops, pending, s := batch.ops, batch.pendingPrev, batch.Now();
      FlushBatch();
      RefinesFlush(start, History(), ops, pending, be.refused, sc, s, batch.Now());
    }

    /** Flushing keeps order and conservation. */
    method FlushBatch()
      requires Valid()
      modifies batch, be
      ensures Valid() && batch.ops == [] && batch.pendingPrev == map[] && (old(be.stopping) ==> be.stopping)
      ensures Settles(old(batch.ops), be.refused, old(batch.Now()), batch.Now())
    {
      ghost var ops, observed, fate := batch.ops, batch.observed, batch.fate;
      IncreasingSuffix(observed, ops);
      batch.Flush();
      RowsOfAppend(observed, CommittedOf(ops, batch.fate), Individual);
      RowsOfAppend(observed, CommittedOf(ops, batch.fate), Object);
      AccountedFlush(ops, observed, fate, batch.fate, be.refused, taken, arrivals, sc);
      LoggedStable(log, taken, arrivals, fate, batch.fate, be.dark, sc);
      forall id | id in batch.fate && batch.fate[id] == Abandoned ensures be.stopping {
        if id !in fate {
          assert id in Ids(ops);
        }
      }
    }

    /** Moves on to the next message. `e` is what the settled one did to the tables. */
    method MoveOn(ghost before: map<nat, Fate>, ghost why: Fate, ghost e: Option<Entry>)
      requires batch.be == be && maxRows > 0 && batch.Ledger()
      requires taken < |arrivals| && queue == arrivals[taken..]
      requires Accounted(batch.ops, batch.observed, before, taken, arrivals, be.refused, sc)
      requires Logged(log, taken, arrivals, before, be.dark, sc) && taken !in before
      requires batch.fate == before[taken := why] && why != Committed
      requires FateFits(taken, queue[0], why, be.refused, sc) && Leaves(e, taken, arrivals, batch.fate, be.dark, sc)
      modifies this`queue, this`taken, this`log
      ensures Orderly() && taken == old(taken) + 1 && log == old(log) + [e]
    {
      hide Refines, Accounted, Logged;
      AccountedTake(batch.ops, batch.observed, before, why, be.refused, taken, arrivals, sc);
      LoggedStable(log, taken, arrivals, before, batch.fate, be.dark, sc);
      LoggedNext(log, e, taken, arrivals, batch.fate, be.dark, sc);
      NextInLine(arrivals, taken);
      queue, taken, log := queue[1..], taken + 1, log + [e];
    }

    /** Takes the next message and acknowledges it without persisting anything. */
    method Consume(ghost why: Fate, ghost e: Option<Entry>)
      requires Valid() && queue != [] && (why == Rejected || why == Handled || why == Refused)
      requires FateFits(taken, queue[0], why, be.refused, sc)
      requires Leaves(e, taken, arrivals, batch.fate[taken := why], be.dark, sc)
      modifies this`queue, this`taken, this`log, batch`acks, batch`fate
      ensures Valid() && taken == old(taken) + 1
      ensures batch.fate == old(batch.fate)[old(taken) := why] && old(taken) !in old(batch.fate)
      ensures log == old(log) + [e]
    {
      ghost var before := batch.fate;
      batch.Ack(taken, why);
      MoveOn(before, why, e);
    }

    /** Consumes a message that did nothing to the tables. */
    method Skip(ghost why: Fate)
      requires Valid() && Chain() && queue != [] && (why == Rejected || why == Handled || why == Refused)
      requires FateFits(taken, queue[0], why, be.refused, sc) && !queue[0].intent.Data?
      requires why == Handled && queue[0].intent.Handler? ==> queue[0].intent.keep.None?
      modifies this`queue, this`taken, this`log, batch`acks, batch`fate
      ensures Valid() && Chain() && taken == old(taken) + 1
      ensures batch.fate == old(batch.fate)[old(taken) := why]
    {
      hide Refines, Logged;
      RefinesStable(start, History(), batch.fate, batch.fate[taken := why], Store(), batch.observed, batch.ops,
                    batch.pendingPrev, be.refused, sc);
      DeedsNext(log, None);
      Consume(why, None);
    }

    /** Takes the next message and leaves it unacknowledged: shutdown arrived while the
        shard was parked on it. */
    method GiveUp()
      requires Valid() && Chain() && queue != [] && be.stopping && FateFits(taken, queue[0], Abandoned, be.refused, sc)
      modifies this`queue, this`taken, this`log, batch`fate
      ensures Valid() && Chain() && taken == old(taken) + 1
      ensures batch.fate == old(batch.fate)[old(taken) := Abandoned]
    {
      hide Refines, Logged;
      ghost var before := batch.fate;
      RefinesStable(start, History(), before, before[taken := Abandoned], Store(), batch.observed, batch.ops,
                    batch.pendingPrev, be.refused, sc);
      DeedsNext(log, None);
      batch.Leave(taken);
      MoveOn(before, Abandoned, None);
    }

    /** Parks until the store answers; false when shutdown comes first. */
    method Reach() returns (up: bool)
      modifies be`script, be`stopping
      ensures (up || be.stopping) && (old(be.stopping) ==> be.stopping)
    {
      up := be.Signal();
      while !up
        invariant old(be.stopping) ==> be.stopping
        decreases |be.script|
      {
        var stop := be.Park();
        if stop {
          return;
        }
        up := be.Signal();
      }
    }

    method Await() returns (up: bool)
      requires Valid() && Chain()
      modifies be`script, be`stopping
      ensures Valid() && Chain() && (up || be.stopping) && (old(be.stopping) ==> be.stopping)
    {
      up := Reach();
    }

    /** Introspection, control and capabilities messages act on persisted state, so the
        batch is flushed first. */
    method Handle()
      requires Valid() && Chain() && queue != [] && queue[0].intent.Handler?
      modifies this`queue, this`taken, this`armed, this`log, batch, be
      ensures Valid() && Chain() && batch.ops == [] && !armed && taken == old(taken) + 1
    {
      FlushShard();
      RunHandler();
    }

    /** The handlers only ever run with the shard's batch empty; a handled purge deletes
        what its list does not keep. */
    method RunHandler()
      requires Valid() && Chain() && queue != [] && queue[0].intent.Handler?
      requires batch.ops == [] && batch.pendingPrev == map[]
      modifies this`queue, this`taken, this`log, batch`acks, batch`fate, be`props, be`script, be`stopping
      ensures Valid() && Chain() && taken == old(taken) + 1 && old(taken) in batch.fate
      ensures be.props == PurgedBy(old(queue)[0], batch.fate[old(taken)], old(be.props), sc)
    {
      if !queue[0].intent.wellFormed {
        Skip(Rejected);
      } else {
        RunWellFormed();
      }
    }

    method RunWellFormed()
      requires Valid() && Chain() && queue != [] && queue[0].intent.Handler? && queue[0].intent.wellFormed
      requires batch.ops == [] && batch.pendingPrev == map[]
      modifies this`queue, this`taken, this`log, batch`acks, batch`fate, be`props, be`script, be`stopping
      ensures Valid() && Chain() && taken == old(taken) + 1 && old(taken) in batch.fate
      ensures be.props == PurgedBy(old(queue)[0], batch.fate[old(taken)], old(be.props), sc)
    {
      hide Shard.Chain, Shard.Tabled, Logged;
      var up := Await();
      if !up {
        GiveUp();
      } else if taken in be.refused {
        Skip(Refused);
      } else {
        Perform();
      }
    }

    method Perform()
      requires Valid() && Chain() && queue != [] && queue[0].intent.Handler? && queue[0].intent.wellFormed
      requires batch.ops == [] && batch.pendingPrev == map[]
      modifies this`queue, this`taken, this`log, batch`acks, batch`fate, be`props
      ensures Valid() && Chain() && taken == old(taken) + 1 && batch.fate == old(batch.fate)[old(taken) := Handled]
      ensures be.props == PurgedBy(old(queue)[0], Handled, old(be.props), sc)
    {
      if queue[0].intent.keep.Some? {
        RunPurge();
      } else {
        Skip(Handled);
      }
    }

    /** The producer/properties purge. */
    method RunPurge()
      requires Valid() && Chain() && batch.ops == [] && batch.pendingPrev == map[]
      requires queue != [] && queue[0].intent.Handler? && queue[0].intent.wellFormed && queue[0].intent.keep.Some?
      modifies this`queue, this`taken, this`log, batch`acks, batch`fate, be`props
      ensures Valid() && Chain() && taken == old(taken) + 1 && batch.fate == old(batch.fate)[old(taken) := Handled]
      ensures be.props == Purged(old(be.props), ResyncOf(old(queue)[0], sc))
      ensures var m := old(queue)[0];
              forall k :: k in be.props <==>
                k in old(be.props) &&
                (k.realmId != m.realm || k.deviceId != m.device || k.ifaceId !in sc.deviceOwned ||
                 PropertyRef(k.ifaceId, k.path) in m.intent.keep.value)
      ensures forall k :: k in be.props ==> be.props[k] == old(be.props)[k]
    {
      hide Refines, Logged;
      ghost var r := ResyncOf(queue[0], sc);
      ghost var now := batch.fate[taken := Handled];
      RefinesPurge(start, History(), batch.fate, Store(), batch.observed, r, be.refused, sc);
      RefinesStable(start, History() + [Purge(r)], batch.fate, now, Store().(props := Purged(be.props, r)),
                    batch.observed, [], map[], be.refused, sc);
      DeedsNext(log, Some(Purge(r)));
      be.props := Purged(be.props, ResyncOf(queue[0], sc));
      Consume(Handled, Some(Purge(r)));
    }

    /** Adds the operation of the next message to the batch. */
    method Join(op: PersistOp)
      requires Valid() && queue != [] && op.id == taken && From(op, arrivals, sc) && Captured(op, be.dark, sc)
      requires Refines(start, History() + [Accept(op)], batch.fate, Store(), batch.observed, batch.ops + [op],
                       batch.pendingPrev, be.refused, sc)
      modifies this`queue, this`taken, this`log, batch`ops
      ensures Valid() && Chain() && taken == old(taken) + 1 && |batch.ops| == |old(batch.ops)| + 1
    {
      hide Refines, Accounted, Logged;
      DeedsNext(log, Some(Accept(op)));
      AccountedJoin(batch.ops, batch.observed, batch.fate, op, taken, arrivals, be.refused, sc);
      LoggedNext(log, Some(Accept(op)), taken, arrivals, batch.fate, be.dark, sc);
      NextInLine(arrivals, taken);
      batch.ops := batch.ops + [op];
      queue, taken, log := queue[1..], taken + 1, log + [Some(Accept(op))];
    }

    /** Validated data: once the device state is loaded, snapshot the previous value and
        join the batch. */
    method ProcessData()
      requires Valid() && Chain() && queue != [] && queue[0].intent.Data?
      modifies this`queue, this`taken, this`log, batch`ops, batch`pendingPrev, batch`fate, be`script, be`stopping
      ensures Valid() && Chain() && taken == old(taken) + 1 && |batch.ops| <= |old(batch.ops)| + 1
      ensures (old(be.stopping) ==> be.stopping) && (!be.stopping ==> |batch.ops| == |old(batch.ops)| + 1)
    {
      var up := Await();
      if up {
        AcceptData();
      } else {
        GiveUp();
      }
    }

    method AcceptData()
      requires Valid() && Chain() && queue != [] && queue[0].intent.Data?
      modifies this`queue, this`taken, this`log, batch`ops, batch`pendingPrev
      ensures Valid() && Chain() && taken == old(taken) + 1 && |batch.ops| == |old(batch.ops)| + 1
    {
      hide Refines, Accounted, Logged;
      ghost var raw, before := OpOf(taken, queue[0], sc), batch.pendingPrev;
      var op := TrackPrevious(OpOf(taken, queue[0], sc));
      TrackedFrom(taken, arrivals, before, Store(), be.dark, sc);
      RefinesAccept(start, History(), batch.fate, Store(), batch.observed, batch.ops, before, raw,
                    batch.pendingPrev, be.dark, be.refused, sc);
      Join(op);
    }

    /** The pipeline on the next message. */
    method Process()
      requires Valid() && Chain() && queue != []
      modifies this`queue, this`taken, this`armed, this`log, batch, be
      ensures Valid() && Chain() && taken == old(taken) + 1
    {
      match queue[0].intent {
        case Invalid => Skip(Rejected);
        case Unhandled => Skip(Handled);
        case Handler(_, _) => Handle();
        case Data(_, _, _, _, _, _) => ProcessData();
      }
    }

    /** The size check: a full batch is flushed, a waiting one has its timer armed. */
    method CheckSize()
      requires Valid() && Chain()
      modifies this`armed, batch, be
      ensures Valid() && Chain() && Idle()
    {
      if |batch.ops| >= maxRows {
        FlushShard();
      } else if |batch.ops| > 0 && !armed {
        armed := true;
      }
    }

    /** One turn of the loop on a delivered message. */
    method Turn()
      requires Valid() && Chain() && Idle() && queue != []
      modifies this`queue, this`taken, this`armed, this`log, batch, be
      ensures Valid() && Chain() && Idle() && taken == old(taken) + 1
    {
      Process();
      CheckSize();
    }

    /** Between turns the batch is below its cap, and a batch that waits has its timer
        armed. */
    ghost predicate Idle()
      reads this`armed, batch`ops
    {
      |batch.ops| < maxRows && (batch.ops != [] ==> armed)
    }

    /** A submitter puts a message on the shard's channel. */
    method Send(m: Inbound)
      requires Valid() && Chain()
      modifies this`queue, this`arrivals
      ensures Valid() && Chain() && arrivals == old(arrivals) + [m]
    {
      hide Refines, Accounted, Logged;
      AccountedMore(batch.ops, batch.observed, batch.fate, taken, arrivals, [m], be.refused, sc);
      LoggedMore(log, taken, arrivals, [m], batch.fate, be.dark, sc);
      queue, arrivals := queue + [m], arrivals + [m];
    }

    method Expire()
      requires Valid() && Chain()
      modifies this`armed, batch, be
      ensures Valid() && Chain() && Idle()
    {
      armed := false;
      FlushShard();
    }

    /** The channel was closed and is empty: the last flush settles what is left. */
    method Finish()
      requires Valid() && Chain() && queue == []
      modifies this`armed, batch, be
      ensures Valid() && Chain() && Idle() && batch.ops == []
      ensures forall id: nat :: id < |arrivals| ==> id in batch.fate
    {
      FlushShard();
      assert |arrivals[taken..]| == 0;
    }

    /** The shard loop over any interleaving of submissions, deliveries and timer
        events. A loop that ends because its channel was closed and empty leaves no
        message unsettled. */
    method ShardPass(ticks: seq<Tick>) returns (closed: bool)
      requires Valid() && Chain() && Idle()
      modifies this`queue, this`taken, this`armed, this`log, this`arrivals, batch, be
      ensures Valid() && Chain() && Idle()
      ensures old(arrivals) <= arrivals
      ensures closed ==> queue == [] && batch.ops == [] && forall id: nat :: id < |arrivals| ==> id in batch.fate
    {
      hide Shard.Chain, Shard.Orderly;
      closed := false;
      for t := 0 to |ticks|
        invariant Valid() && Chain() && Idle()
        invariant old(arrivals) <= arrivals
      {
        match ticks[t] {
          case Arrive(m) =>
            Send(m);
          case Receive =>
            if queue != [] {
              Turn();
            }
          case Timer =>
            if armed {
              Expire();
            }
          case Closed =>
            if queue == [] {
              Finish();
              closed := true;
              return;
            }
          case Cancel =>
            return;
        }
      }
    }
  }

  /** A data message nothing goes wrong with: its value renders (an unset has none) and
      has the declared type, the database takes it, and its previous-value lookup, if a
      trigger watches its path, succeeds. */
  ghost predicate Clean(id: nat, m: Inbound, refused: set<nat>, dark: set<nat>, sc: Schema) {
    m.intent.Data? ==>
      var d := m.intent;
      && id !in refused
      && (if d.ifaceId in sc.properties then d.unset || d.json.Some? else d.typed && d.json.Some?)
      && (PrevKey(m.realm, m.device, d.ifaceId, d.path) in sc.watched ==> id !in dark)
  }

  /** Whatever the batching, the timers and the store outages of a run were: if its data
      messages are clean and shutdown did not cut it short, it is blameless. */
  lemma {:induction false} CleanIsBlameless(sh: Shard)
    requires sh.Valid() && !sh.be.stopping
    requires forall id {:trigger sh.arrivals[id]} :: 0 <= id < sh.taken ==>
               Clean(id, sh.arrivals[id], sh.be.refused, sh.be.dark, sh.sc)
    ensures Blameless(sh.History(), sh.batch.fate, sh.be.refused, sh.sc)
  {
    var history := sh.History();
    forall i | 0 <= i < |history| && history[i].Accept?
      ensures Smooth(history[i].op, sh.batch.fate, sh.be.refused, sh.sc)
    {
      var id := DeedsMember(sh.log, i);
      assert Leaves(sh.log[id], id, sh.arrivals, sh.batch.fate, sh.be.dark, sh.sc);
      assert Clean(id, sh.arrivals[id], sh.be.refused, sh.be.dark, sh.sc);
    }
  }

  /** Such a run left the tables of the serial processor, pending operations aside, and
      fired its events: every watched key sees the same change events with the same
      values, and creations and removals of a property take turns. */
  lemma {:induction false} BlamelessRunIsSerial<V>(sh: Shard, parse: Json -> Option<V>, key: PrevKey)
    requires sh.Valid() && sh.Chain() && Blameless(sh.History(), sh.batch.fate, sh.be.refused, sh.sc)
    ensures Replay(sh.start, sh.History()) == WorldAfter(sh.Store(), sh.batch.ops)
    ensures Operations(sh.History()) == sh.batch.observed + sh.batch.ops
    ensures key in sh.sc.watched && key.ifaceId in sh.sc.properties ==>
              Alternates(Changes(sh.start, sh.History(), key), key in sh.start.props)
    ensures key in sh.sc.watched && (key.ifaceId in sh.sc.properties || key.ifaceId !in sh.sc.objects) &&
            Ordered(Replay(sh.start, sh.History()), key, sh.sc) ==>
              && FiredOn(parse, sh.History(), key) == SerialOn(parse, sh.start, sh.History(), key, sh.sc)
              && FiredOn(parse, sh.History(), key) == DifferencesOn(parse, sh.start, sh.History(), key, sh.sc)
  {
    var start, history, sc := sh.start, sh.History(), sh.sc;
    if key in sc.watched && key.ifaceId in sc.properties {
      ChangesAlternate(start, history, key, sc);
    }
    if key in sc.watched && (key.ifaceId in sc.properties || key.ifaceId !in sc.objects) &&
       Ordered(Replay(start, history), key, sc) {
      EventsAreSerial(parse, start, history, key, sc);
      EventsAreDifferences(parse, start, history, key, sc);
    }
  }
}
