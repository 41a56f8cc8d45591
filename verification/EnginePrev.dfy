/** Previous-value snapshots: the in-batch chain against a serial processor that
    commits every operation before accepting the next. */
module EnginePrev {
  import opened Wrappers
  import opened EngineOps

  datatype PrevSnap = PrevSnap(found: bool, json: Json)

  /** The tables of the store. A previous-value lookup reads the properties and `rows`,
      the individual series. */
  datatype World = World(props: Properties, rows: seq<Row>, objects: seq<Row>)

  /** Which interfaces are properties, object or device-owned interfaces, and which keys
      an installed trigger watches for changes. All are fixed for a run. */
  datatype Schema = Schema(properties: set<int>, objects: set<int>, deviceOwned: set<int>, watched: set<PrevKey>)

  function WorldAfter(w: World, ops: seq<PersistOp>): World {
    World(ApplyAll(w.props, ops), w.rows + RowsOf(ops, Individual), w.objects + RowsOf(ops, Object))
  }

  /** The newest sample of a series, by timestamp. */
  function Latest(rows: seq<Row>, key: PrevKey): Option<Row> {
    if rows == [] then None else
    var row, rest := rows[|rows| - 1], Latest(rows[..|rows| - 1], key);
    if row.key == key && (rest.None? || rest.value.ts <= row.ts) then Some(row) else rest
  }

  /** What the store answers for the current value of a key. */
  function Reading(w: World, key: PrevKey, sc: Schema): Option<Json> {
    if key.ifaceId in sc.properties then
      if key in w.props then Some(w.props[key]) else None
    else
      match Latest(w.rows, key) case None => None case Some(row) => Some(row.value)
  }

  /** A properties key, or a series whose samples arrived in timestamp order. */
  ghost predicate Ordered(w: World, key: PrevKey, sc: Schema) {
    key.ifaceId in sc.properties ||
    forall i, j :: 0 <= i < j < |w.rows| && w.rows[i].key == key && w.rows[j].key == key ==>
      w.rows[i].ts < w.rows[j].ts
  }

  /** The kind of an operation is decided by its interface. */
  predicate WellKinded(op: PersistOp, sc: Schema) {
    && (IsProperty(op) <==> op.key.ifaceId in sc.properties)
    && (op.kind.Object? <==> op.key.ifaceId !in sc.properties && op.key.ifaceId in sc.objects)
    && (op.kind.PropertyUnset? ==> op.json == Some("null"))
  }

  /** Change tracking applies to watched keys, objects excepted. */
  predicate Trackable(op: PersistOp, sc: Schema) {
    !op.kind.Object? && op.key in sc.watched
  }

  /** The recorded snapshot says what the reading says. The `prev` bytes are only
      meaningful when a previous value existed. */
  predicate SamePrev(op: PersistOp, reading: Option<Json>) {
    op.tracked && op.prevExists == reading.Some? && (reading.Some? ==> op.prev == reading.value)
  }

  predicate SnapSays(snap: PrevSnap, reading: Option<Json>) {
    snap.found == reading.Some? && (reading.Some? ==> snap.json == reading.value)
  }

  /** The chain invariant of an unflushed batch `ops` over store tables `w`: every
      trackable pending key has a snapshot, and each snapshot says what a store that
      had already committed the batch would answer. */
  ghost predicate Chained(w: World, ops: seq<PersistOp>, pending: map<PrevKey, PrevSnap>, sc: Schema) {
    && (forall i :: 0 <= i < |ops| ==> WellKinded(ops[i], sc))
    && (forall i :: 0 <= i < |ops| && Trackable(ops[i], sc) ==> ops[i].key in pending)
    && (forall k :: k in pending ==> k in sc.watched)
    && (forall k :: k in pending && Ordered(WorldAfter(w, ops), k, sc) ==>
          SnapSays(pending[k], Reading(WorldAfter(w, ops), k, sc)))
  }

  lemma {:induction false} LatestAppend(rows: seq<Row>, more: seq<Row>, key: PrevKey)
    requires forall i :: 0 <= i < |more| ==> more[i].key != key
    ensures Latest(rows + more, key) == Latest(rows, key)
  {
    if more == [] {
      assert rows + more == rows;
    } else {
      assert (rows + more)[..|rows + more| - 1] == rows + more[..|more| - 1];
      LatestAppend(rows, more[..|more| - 1], key);
    }
  }

  /** The latest sample of a series has its newest timestamp. */
  lemma {:induction false} LatestIsNewest(rows: seq<Row>, key: PrevKey, i: nat)
    requires i < |rows| && rows[i].key == key
    ensures Latest(rows, key).Some? && rows[i].ts <= Latest(rows, key).value.ts
    decreases |rows|
  {
    if i < |rows| - 1 {
      LatestIsNewest(rows[..|rows| - 1], key, i);
    }
  }

  lemma {:induction false} LatestIsMember(rows: seq<Row>, key: PrevKey)
    ensures Latest(rows, key).Some? ==>
              exists i :: 0 <= i < |rows| && rows[i] == Latest(rows, key).value && rows[i].key == key
  {
    if rows != [] {
      LatestIsMember(rows[..|rows| - 1], key);
    }
  }

  /** A sample newer than every other of its series is the latest. */
  lemma {:induction false} LatestOrdered(w: World, row: Row, sc: Schema)
    requires row.key.ifaceId !in sc.properties
    requires Ordered(w.(rows := w.rows + [row]), row.key, sc)
    ensures Latest(w.rows + [row], row.key) == Some(row)
  {
    var all := w.rows + [row];
    assert all[..|all| - 1] == w.rows && all[|all| - 1] == row;
    LatestIsMember(w.rows, row.key);
    if Latest(w.rows, row.key).Some? {
      var i :| 0 <= i < |w.rows| && w.rows[i] == Latest(w.rows, row.key).value && w.rows[i].key == row.key;
      assert all[i] == w.rows[i];
    }
  }

  lemma {:induction false} RowsOfKeys(ops: seq<PersistOp>, key: PrevKey)
    requires forall i :: 0 <= i < |ops| && ops[i].kind.Individual? ==> ops[i].key != key
    ensures forall i :: 0 <= i < |RowsOf(ops, Individual)| ==> RowsOf(ops, Individual)[i].key != key
  {
    if ops != [] {
      RowsOfKeys(ops[..|ops| - 1], key);
    }
  }

  /** A pending batch that does not write a key does not change what is read there. */
  lemma {:induction false} ReadingUntouched(w: World, ops: seq<PersistOp>, key: PrevKey, sc: Schema)
    requires forall i :: 0 <= i < |ops| ==> WellKinded(ops[i], sc) && (ops[i].key == key ==> ops[i].kind.Object?)
    ensures Reading(WorldAfter(w, ops), key, sc) == Reading(w, key, sc)
  {
    ApplyAllFrame(w.props, ops);
    RowsOfKeys(ops, key);
    LatestAppend(w.rows, RowsOf(ops, Individual), key);
  }

  lemma {:induction false} WorldAfterAppend(w: World, ops: seq<PersistOp>, op: PersistOp)
    ensures WorldAfter(w, ops + [op]) == WorldAfter(WorldAfter(w, ops), [op])
  {
    ApplyAllAppend(w.props, ops, [op]);
    RowsOfAppend(ops, [op], Individual);
    RowsOfAppend(ops, [op], Object);
  }

  /** What one converting operation does to readings: the written key reads the new
      value, every other key reads as before. */
  lemma {:induction false} ReadingAfterOne(w: World, op: PersistOp, key: PrevKey, sc: Schema)
    requires WellKinded(op, sc) && Converts(op)
    requires Ordered(WorldAfter(w, [op]), key, sc)
    ensures Ordered(w, key, sc)
    ensures Reading(WorldAfter(w, [op]), key, sc) ==
            if op.key != key || op.kind.Object? then Reading(w, key, sc)
            else if op.kind.PropertyUnset? then None
            else op.json
  {
    var next := WorldAfter(w, [op]);
    assert [op][..0] == [] && ApplyAll(w.props, []) == w.props;
    assert next.props == Apply(w.props, op);
    assert forall i :: 0 <= i < |w.rows| ==> next.rows[i] == w.rows[i];
    if op.key != key || op.kind.Object? {
      ReadingUntouched(w, [op], key, sc);
    } else if op.kind.Individual? {
      assert RowsOf([op], Individual) == [RowOf(op)];
      LatestOrdered(w, RowOf(op), sc);
    }
  }

  /** The chain after an operation was accepted: the key of a trackable one maps to the
      value it leaves. */
  function ChainAfter(pending: map<PrevKey, PrevSnap>, op: PersistOp, sc: Schema): map<PrevKey, PrevSnap> {
    if Trackable(op, sc) && op.json.Some? then
      pending[op.key := PrevSnap(!op.kind.PropertyUnset?, op.json.value)]
    else pending
  }

  /** One key of the chain when one more operation is accepted. */
  lemma {:induction false} ChainGrowsAt(
    w: World, ops: seq<PersistOp>, op: PersistOp, pending: map<PrevKey, PrevSnap>, sc: Schema, k: PrevKey)
    requires Chained(w, ops, pending, sc) && WellKinded(op, sc) && Converts(op)
    requires k in ChainAfter(pending, op, sc) && Ordered(WorldAfter(w, ops + [op]), k, sc)
    ensures SnapSays(ChainAfter(pending, op, sc)[k], Reading(WorldAfter(w, ops + [op]), k, sc))
  {
    WorldAfterAppend(w, ops, op);
    ReadingAfterOne(WorldAfter(w, ops), op, k, sc);
  }

  /** Accepting one more operation keeps the chain invariant. */
  lemma {:induction false} ChainGrows(
    w: World, ops: seq<PersistOp>, op: PersistOp, pending: map<PrevKey, PrevSnap>, sc: Schema)
    requires Chained(w, ops, pending, sc) && WellKinded(op, sc) && Converts(op)
    ensures Chained(w, ops + [op], ChainAfter(pending, op, sc), sc)
  {
    var after := ChainAfter(pending, op, sc);
    forall k | k in after && Ordered(WorldAfter(w, ops + [op]), k, sc)
      ensures SnapSays(after[k], Reading(WorldAfter(w, ops + [op]), k, sc))
    {
      ChainGrowsAt(w, ops, op, pending, sc, k);
    }
  }

  /** The snapshot taken when the lookup succeeds: from the chain of the unflushed
      batch if it knows the key, else from the store. */
  function Snapshot(op: PersistOp, pending: map<PrevKey, PrevSnap>, store: World, sc: Schema): PersistOp {
    if op.key in pending then
      op.(tracked := true, prevExists := pending[op.key].found, prev := pending[op.key].json)
    else
      match Reading(store, op.key, sc)
      case None => op.(tracked := true, prevExists := false, prev := "")
      case Some(json) => op.(tracked := true, prevExists := true, prev := json)
  }

  /** The snapshot says what a store that had committed the batch would say. Byte for
      byte it is the unbatched snapshot exactly unless a pending unset left its own
      rendering behind. */
  lemma {:induction false} SnapshotIsSerial(
    w: World, ops: seq<PersistOp>, pending: map<PrevKey, PrevSnap>, op: PersistOp, sc: Schema)
    requires Chained(w, ops, pending, sc) && Trackable(op, sc)
    requires Ordered(WorldAfter(w, ops), op.key, sc)
    ensures SamePrev(Snapshot(op, pending, w, sc), Reading(WorldAfter(w, ops), op.key, sc))
    ensures Snapshot(op, pending, w, sc) == Snapshot(op, map[], WorldAfter(w, ops), sc) <==>
            !(op.key in pending && !pending[op.key].found && pending[op.key].json != "")
  {
    if op.key !in pending {
      ReadingUntouched(w, ops, op.key, sc);
    }
  }

  /** The events of the change stage. `from` is the previous value as it decodes. */
  datatype Event<V> =
    | ValueChange(from: Option<V>, json: Json)
    | PathCreated(json: Json)
    | PathRemoved
    | ValueChangeApplied(from: Option<V>, json: Json)

  /** Two renderings that decode to the same value. */
  predicate JsonEqual<V(==)>(parse: Json -> Option<V>, a: Json, b: Json) {
    parse(a).Some? && parse(b).Some? && parse(a) == parse(b)
  }

  predicate Creates(op: PersistOp) {
    op.tracked && !op.prevExists && !op.kind.PropertyUnset?
  }

  predicate Removes(op: PersistOp) {
    op.tracked && op.prevExists && op.kind.PropertyUnset?
  }

  predicate Modifies<V(==)>(parse: Json -> Option<V>, op: PersistOp) {
    op.tracked && op.json.Some? && (!op.prevExists || !JsonEqual(parse, op.json.value, op.prev))
  }

  /** What the change stage emits for one committed operation, in order. */
  function Fire<V(==)>(parse: Json -> Option<V>, op: PersistOp): seq<Event<V>> {
    if !op.tracked || op.json.None? then [] else
    var json, from := op.json.value, if op.prevExists then parse(op.prev) else None;
    (if Modifies(parse, op) then [ValueChange(from, json)] else []) +
    (if Creates(op) then [PathCreated(json)] else []) +
    (if Removes(op) then [PathRemoved] else []) +
    (if Modifies(parse, op) then [ValueChangeApplied(from, json)] else [])
  }

  /** What observers are told when the reading of a key goes from `before` to `after`. */
  function Difference<V(==)>(parse: Json -> Option<V>, before: Option<Json>, after: Option<Json>): seq<Event<V>> {
    var now := if after.Some? then after.value else "null";
    var from := if before.Some? then parse(before.value) else None;
    var same := before.Some? && from.Some? && from == parse(now);
    (if same then [] else [ValueChange(from, now)]) +
    (if before.None? && after.Some? then [PathCreated(now)] else []) +
    (if before.Some? && after.None? then [PathRemoved] else []) +
    (if same then [] else [ValueChangeApplied(from, now)])
  }

  /** A tracked operation fires by the readings of its key before and after it. A first
      value is a change and a creation; another value is a change unless it decodes to
      the same; an unset of a value is a removal, and a change unless the value was a
      null; an unset of nothing is a change. Old and new values are carried. */
  lemma {:induction false} FiresByReadings<V>(parse: Json -> Option<V>, w: World, op: PersistOp, sc: Schema)
    requires WellKinded(op, sc) && Converts(op) && !op.kind.Object? && Ordered(WorldAfter(w, [op]), op.key, sc)
    requires SamePrev(op, Reading(w, op.key, sc))
    ensures var before, after := Reading(w, op.key, sc), Reading(WorldAfter(w, [op]), op.key, sc);
            && (before.None? && after.Some? ==>
                  Fire(parse, op) ==
                  [ValueChange(None, after.value), PathCreated(after.value), ValueChangeApplied(None, after.value)])
            && (before.Some? && after.Some? ==>
                  var old0 := parse(before.value);
                  var same := old0.Some? && parse(after.value) == old0;
                  Fire(parse, op) ==
                  if same then [] else [ValueChange(old0, after.value), ValueChangeApplied(old0, after.value)])
            && (before.Some? && after.None? ==>
                  var old0 := parse(before.value);
                  var same := old0.Some? && parse("null") == old0;
                  Fire(parse, op) ==
                  if same then [PathRemoved]
                  else [ValueChange(old0, "null"), PathRemoved, ValueChangeApplied(old0, "null")])
            && (before.None? && after.None? ==>
                  Fire(parse, op) == [ValueChange(None, "null"), ValueChangeApplied(None, "null")])
            && Fire(parse, op) == Difference(parse, before, after)
  {
    ReadingAfterOne(w, op, op.key, sc);
  }

  /** The change stage reads nothing of a snapshot but what it says: the bytes kept
      beside a value that did not exist make no difference. */
  lemma {:induction false} SamePrevFiresAlike<V>(
    parse: Json -> Option<V>, a: PersistOp, b: PersistOp, reading: Option<Json>)
    requires SamePrev(a, reading) && SamePrev(b, reading) && a.kind == b.kind && a.json == b.json
    ensures Modifies(parse, a) == Modifies(parse, b) && Creates(a) == Creates(b) && Removes(a) == Removes(b)
    ensures Fire(parse, a) == Fire(parse, b)
  {
  }

  lemma {:induction false} SerialSnapshot(op: PersistOp, w: World, sc: Schema)
    ensures SamePrev(Snapshot(op, map[], w, sc), Reading(w, op.key, sc))
  {
  }

  /** The chained snapshot fires exactly the events of the serial one. */
  lemma {:induction false} ChainFiresSerially<V>(
    parse: Json -> Option<V>, w: World, ops: seq<PersistOp>, pending: map<PrevKey, PrevSnap>, op: PersistOp, sc: Schema)
    requires Chained(w, ops, pending, sc) && Trackable(op, sc)
    requires Ordered(WorldAfter(w, ops), op.key, sc)
    ensures Fire(parse, Snapshot(op, pending, w, sc)) == Fire(parse, Snapshot(op, map[], WorldAfter(w, ops), sc))
  {
    var next := WorldAfter(w, ops);
    SnapshotIsSerial(w, ops, pending, op, sc);
    SerialSnapshot(op, next, sc);
    SamePrevFiresAlike(parse, Snapshot(op, pending, w, sc), Snapshot(op, map[], next, sc), Reading(next, op.key, sc));
  }

  /** Set, unset, set in one batch: the last operation carries the text "null" of the
      pending unset, where a store lookup would have left nothing. */
  lemma {:induction false} UnsetLeavesBytes(key: PrevKey, json: Json)
    returns (w: World, ops: seq<PersistOp>, pending: map<PrevKey, PrevSnap>, op: PersistOp, sc: Schema)
    ensures Chained(w, ops, pending, sc) && Trackable(op, sc) && Ordered(WorldAfter(w, ops), op.key, sc)
    ensures Snapshot(op, pending, w, sc) != Snapshot(op, map[], WorldAfter(w, ops), sc)
  {
    w, sc := World(map[], [], []), Schema({key.ifaceId}, {}, {}, {key});
    var first := PersistOp(0, PropertySet, key, Some(json), true, 0, true, false, "");
    var second := PersistOp(1, PropertyUnset, key, Some("null"), true, 0, true, true, json);
    op := PersistOp(2, PropertySet, key, Some(json), true, 0, false, false, "");
    ChainGrows(w, [], first, map[], sc);
    var one := ChainAfter(map[], first, sc);
    ChainGrows(w, [first], second, one, sc);
    ops, pending := [first] + [second], ChainAfter(one, second, sc);
    assert [] + [first] == [first];
    SnapshotIsSerial(w, ops, pending, op, sc);
  }

  /** Names a property row of a known device. */
  datatype PropertyRef = PropertyRef(ifaceId: int, path: string)

  /** A producer/properties message: of the rows of one device on device-owned
      interfaces, only those it lists survive. */
  datatype Resync = Resync(realmId: int, deviceId: int, owned: set<int>, keep: set<PropertyRef>)

  predicate Drops(r: Resync, k: PrevKey) {
    k.realmId == r.realmId && k.deviceId == r.deviceId && k.ifaceId in r.owned &&
    PropertyRef(k.ifaceId, k.path) !in r.keep
  }

  function Purged(props: Properties, r: Resync): Properties {
    map k | k in props && !Drops(r, k) :: props[k]
  }

  /** What a shard did to the tables, in order. */
  datatype Entry = Accept(op: PersistOp) | Purge(resync: Resync)

  /** The serial processor: each entry takes effect before the next is looked at. */
  function Advance(w: World, e: Entry): World {
    match e
    case Accept(op) => WorldAfter(w, [op])
    case Purge(resync) => w.(props := Purged(w.props, resync))
  }

  function Replay(w: World, history: seq<Entry>): World {
    if history == [] then w else Advance(Replay(w, history[..|history| - 1]), history[|history| - 1])
  }

  /** Every trackable operation of the history carries the snapshot the serial
      processor would have read for it (for series: while in timestamp order). */
  ghost predicate PrevFaithful(start: World, history: seq<Entry>, sc: Schema) {
    forall i :: 0 <= i < |history| && history[i].Accept? ==> PrevFaithfulAt(start, history, i, sc)
  }

  ghost predicate PrevFaithfulAt(start: World, history: seq<Entry>, i: nat, sc: Schema)
    requires i < |history| && history[i].Accept?
  {
    var op, seen := history[i].op, Replay(start, history[..i]);
    WellKinded(op, sc) && Converts(op) &&
    (Trackable(op, sc) && Ordered(seen, op.key, sc) ==> SamePrev(op, Reading(seen, op.key, sc)))
  }

  lemma {:induction false} PrevFaithfulGrows(start: World, history: seq<Entry>, e: Entry, sc: Schema)
    requires PrevFaithful(start, history, sc)
    requires e.Accept? ==> WellKinded(e.op, sc) && Converts(e.op)
    requires e.Accept? && Trackable(e.op, sc) && Ordered(Replay(start, history), e.op.key, sc) ==>
               SamePrev(e.op, Reading(Replay(start, history), e.op.key, sc))
    ensures PrevFaithful(start, history + [e], sc)
    ensures Replay(start, history + [e]) == Advance(Replay(start, history), e)
  {
    var next := history + [e];
    assert next[..|next| - 1] == history;
    forall i | 0 <= i < |next| && next[i].Accept? ensures PrevFaithfulAt(start, next, i, sc) {
      assert next[..i] == if i < |history| then history[..i] else history;
      if i < |history| { assert PrevFaithfulAt(start, history, i, sc); }
    }
  }

  /** The change events a history fires on one key. */
  ghost function FiredOn<V>(parse: Json -> Option<V>, history: seq<Entry>, key: PrevKey): seq<Event<V>> {
    if history == [] then [] else
    var before, e := FiredOn(parse, history[..|history| - 1], key), history[|history| - 1];
    if e.Accept? && e.op.key == key then before + Fire(parse, e.op) else before
  }

  /** The change events of a processor that commits every operation at once and reads
      the previous value from the store. */
  ghost function SerialOn<V>(
    parse: Json -> Option<V>, start: World, history: seq<Entry>, key: PrevKey, sc: Schema): seq<Event<V>>
  {
    if history == [] then [] else
    var rest, e := history[..|history| - 1], history[|history| - 1];
    var before := SerialOn(parse, start, rest, key, sc);
    if e.Accept? && e.op.key == key then before + Fire(parse, Snapshot(e.op, map[], Replay(start, rest), sc))
    else before
  }

  lemma {:induction false} PrevFaithfulPrefix(start: World, history: seq<Entry>, n: nat, sc: Schema)
    requires PrevFaithful(start, history, sc) && n <= |history|
    ensures PrevFaithful(start, history[..n], sc)
  {
    var rest := history[..n];
    forall i | 0 <= i < n && rest[i].Accept? ensures PrevFaithfulAt(start, rest, i, sc) {
      assert PrevFaithfulAt(start, history, i, sc) && rest[..i] == history[..i];
    }
  }

  /** Rows are only added, so a series in order now was in order before. */
  lemma {:induction false} OrderedBefore(w: World, e: Entry, key: PrevKey, sc: Schema)
    requires Ordered(Advance(w, e), key, sc)
    ensures Ordered(w, key, sc)
  {
    assert forall i :: 0 <= i < |w.rows| ==> Advance(w, e).rows[i] == w.rows[i];
  }

  /** The value_change, path_created, path_removed and value_change_applied events of a
      watched key are those of the serial processor (for series: while in timestamp
      order), values included. */
  lemma {:induction false} EventsAreSerial<V>(
    parse: Json -> Option<V>, start: World, history: seq<Entry>, key: PrevKey, sc: Schema)
    requires PrevFaithful(start, history, sc) && key in sc.watched
    requires key.ifaceId in sc.properties || key.ifaceId !in sc.objects
    requires Ordered(Replay(start, history), key, sc)
    ensures FiredOn(parse, history, key) == SerialOn(parse, start, history, key, sc)
  {
    if history != [] {
      var n := |history| - 1;
      var rest, e := history[..n], history[n];
      var seen := Replay(start, rest);
      PrevFaithfulPrefix(start, history, n, sc);
      OrderedBefore(seen, e, key, sc);
      EventsAreSerial(parse, start, rest, key, sc);
      if e.Accept? && e.op.key == key {
        assert PrevFaithfulAt(start, history, n, sc);
        SerialSnapshot(e.op, seen, sc);
        SamePrevFiresAlike(parse, e.op, Snapshot(e.op, map[], seen, sc), Reading(seen, key, sc));
      }
    }
  }

  /** The differences a serial processor makes on one key, operation by operation. */
  ghost function DifferencesOn<V>(
    parse: Json -> Option<V>, start: World, history: seq<Entry>, key: PrevKey, sc: Schema): seq<Event<V>>
  {
    if history == [] then [] else
    var rest, e := history[..|history| - 1], history[|history| - 1];
    var before := DifferencesOn(parse, start, rest, key, sc);
    if e.Accept? && e.op.key == key then
      before + Difference(parse, Reading(Replay(start, rest), key, sc), Reading(Replay(start, history), key, sc))
    else before
  }

  /** The events of a watched key tell exactly how its reading changed, operation by
      operation (for series: while in timestamp order). */
  lemma {:induction false} EventsAreDifferences<V>(
    parse: Json -> Option<V>, start: World, history: seq<Entry>, key: PrevKey, sc: Schema)
    requires PrevFaithful(start, history, sc) && key in sc.watched
    requires key.ifaceId in sc.properties || key.ifaceId !in sc.objects
    requires Ordered(Replay(start, history), key, sc)
    ensures FiredOn(parse, history, key) == DifferencesOn(parse, start, history, key, sc)
  {
    if history != [] {
      var n := |history| - 1;
      var rest, e := history[..n], history[n];
      var seen := Replay(start, rest);
      PrevFaithfulPrefix(start, history, n, sc);
      OrderedBefore(seen, e, key, sc);
      EventsAreDifferences(parse, start, rest, key, sc);
      if e.Accept? && e.op.key == key {
        assert PrevFaithfulAt(start, history, n, sc);
        FiresByReadings(parse, seen, e.op, sc);
      }
    }
  }

  /** What the change-event stage reports for one key: path_created (true) and
      path_removed (false), plus the silent removals a purge makes. */
  datatype Change = Created | Removed | Wiped

  /** Changes of a properties key over a history, decided for accepted operations by
      the recorded snapshot alone, as the event stage does. */
  ghost function Changes(start: World, history: seq<Entry>, key: PrevKey): seq<Change> {
    if history == [] then [] else
    var rest, e := history[..|history| - 1], history[|history| - 1];
    var before := Changes(start, rest, key);
    match e
    case Accept(op) =>
      if op.key != key then before
      else if Creates(op) then before + [Created]
      else if Removes(op) then before + [Removed]
      else before
    case Purge(resync) =>
      if key in Replay(start, rest).props && Drops(resync, key) then before + [Wiped] else before
  }

  /** Appearances and disappearances take turns, the first one undoing the initial
      presence of the key. */
  ghost predicate Alternates(changes: seq<Change>, present: bool) {
    && (changes != [] ==> (changes[0] == Created <==> !present))
    && forall i, j :: 0 <= i < j < |changes| && j == i + 1 ==> (changes[j] == Created <==> changes[i] != Created)
  }

  /** With purges counted as disappearances, the changes of every watched properties
      key strictly alternate, and the last one tells whether the key is present. */
  lemma {:induction false} ChangesAlternate(start: World, history: seq<Entry>, key: PrevKey, sc: Schema)
    requires PrevFaithful(start, history, sc)
    requires key in sc.watched && key.ifaceId in sc.properties
    ensures Alternates(Changes(start, history, key), key in start.props)
    ensures var c := Changes(start, history, key);
            key in Replay(start, history).props <==> if c == [] then key in start.props else c[|c| - 1] == Created
  {
    if history != [] {
      var n := |history| - 1;
      var rest, e := history[..n], history[n];
      PrevFaithfulPrefix(start, history, n, sc);
      ChangesAlternate(start, rest, key, sc);
      if e.Accept? {
        assert PrevFaithfulAt(start, history, n, sc);
        ReadingAfterOne(Replay(start, rest), e.op, key, sc);
      }
    }
  }

  /** The events observers see: purges are silent. */
  function Reported(changes: seq<Change>): seq<Change> {
    if changes == [] then [] else
    var rest, c := Reported(changes[..|changes| - 1]), changes[|changes| - 1];
    if c == Wiped then rest else rest + [c]
  }

  ghost predicate StrictlyAlternates(events: seq<Change>) {
    forall i, j :: 0 <= i < j < |events| && j == i + 1 ==> events[i] != events[j]
  }

  lemma {:induction false} ReportedAppend(a: seq<Change>, b: seq<Change>)
    ensures Reported(a + b) == Reported(a) + Reported(b)
  {
    if b == [] {
      assert a + b == a;
    } else {
      assert (a + b)[..|a + b| - 1] == a + b[..|b| - 1];
      ReportedAppend(a, b[..|b| - 1]);
    }
  }

  lemma {:induction false} ReportedAll(changes: seq<Change>)
    requires forall i :: 0 <= i < |changes| ==> changes[i] != Wiped
    ensures Reported(changes) == changes
  {
    if changes != [] {
      ReportedAll(changes[..|changes| - 1]);
    }
  }

  /** path_created and path_removed events on a watched properties key strictly
      alternate exactly when no purge wiped the key between two other changes. */
  lemma {:induction false} ReportedAlternateIff(start: World, history: seq<Entry>, key: PrevKey, sc: Schema)
    requires PrevFaithful(start, history, sc)
    requires key in sc.watched && key.ifaceId in sc.properties
    ensures var c := Changes(start, history, key);
            StrictlyAlternates(Reported(c)) <==> forall i :: 0 < i < |c| - 1 ==> c[i] != Wiped
  {
    var c := Changes(start, history, key);
    ChangesAlternate(start, history, key, sc);
    if i :| 0 < i < |c| - 1 && c[i] == Wiped {
      SilentGap(c, i, key in start.props);
    } else if |c| > 0 {
      NoSilentGap(c, key in start.props);
    }
  }

  lemma {:induction false} SilentGap(c: seq<Change>, i: nat, present: bool)
    requires Alternates(c, present) && 0 < i < |c| - 1 && c[i] == Wiped
    ensures !StrictlyAlternates(Reported(c))
  {
    var before, after := c[..i - 1], c[i + 2..];
    assert c == before + [Created] + [Wiped] + [Created] + after;
    ReportedAppend(before, [Created]);
    ReportedAppend(before + [Created], [Wiped]);
    ReportedAppend(before + [Created] + [Wiped], [Created]);
    ReportedAppend(before + [Created] + [Wiped] + [Created], after);
    var n, r := |Reported(before)|, Reported(c);
    assert r == Reported(before) + [Created] + [Created] + Reported(after);
    assert r[n] == Created && r[n + 1] == Created;
  }

  lemma {:induction false} NoSilentGap(c: seq<Change>, present: bool)
    requires Alternates(c, present) && |c| > 0
    requires forall i :: 0 < i < |c| - 1 ==> c[i] != Wiped
    ensures StrictlyAlternates(Reported(c))
  {
    var hi := TrailingWipe(c);
    var lo := LeadingWipe(c, hi);
    NoWipes(c, lo, hi, present);
  }

  lemma {:induction false} TrailingWipe(c: seq<Change>) returns (hi: nat)
    requires c != []
    ensures hi == (if c[|c| - 1] == Wiped then |c| - 1 else |c|) && Reported(c) == Reported(c[..hi])
  {
    hi := if c[|c| - 1] == Wiped then |c| - 1 else |c|;
    assert c[..|c|] == c;
  }

  lemma {:induction false} LeadingWipe(c: seq<Change>, hi: nat) returns (lo: nat)
    requires hi <= |c|
    ensures lo == (if hi > 0 && c[0] == Wiped then 1 else 0) && Reported(c[..hi]) == Reported(c[lo..hi])
  {
    lo := if hi > 0 && c[0] == Wiped then 1 else 0;
    if lo == 1 {
      ReportedAppend([Wiped], c[1..hi]);
      assert c[..hi] == [Wiped] + c[1..hi];
    } else {
      assert c[..hi] == c[lo..hi];
    }
  }

  lemma {:induction false} NoWipes(c: seq<Change>, lo: nat, hi: nat, present: bool)
    requires Alternates(c, present) && lo <= hi <= |c|
    requires forall i :: lo <= i < hi ==> c[i] != Wiped
    ensures StrictlyAlternates(Reported(c[lo..hi]))
  {
    var part := c[lo..hi];
    forall i | 0 <= i < |part| ensures part[i] != Wiped {
      assert part[i] == c[lo + i];
    }
    ReportedAll(part);
    forall i, j | 0 <= i < j < |part| && j == i + 1 ensures part[i] != part[j] {
      assert part[i] == c[lo + i] && part[j] == c[lo + j];
    }
  }

  /** A purge deletes the row without a path_removed event: set, purge, set reports
      two path_created events in a row. */
  lemma {:induction false} PurgeBreaksAlternation(key: PrevKey, json: Json)
    returns (start: World, history: seq<Entry>, sc: Schema)
    ensures PrevFaithful(start, history, sc) && key in sc.watched && key.ifaceId in sc.properties
    ensures !StrictlyAlternates(Reported(Changes(start, history, key)))
  {
    start, history, sc := World(map[], [], []), [], Schema({key.ifaceId}, {}, {key.ifaceId}, {key});
    var first := PersistOp(0, PropertySet, key, Some(json), true, 0, true, false, "");
    SetOnEmpty(start, history, first, sc);
    history := history + [Accept(first)];
    PurgeOnSet(start, history, key, sc);
    history := history + [Purge(Everything(key))];
    var second := first.(id := 2);
    SetOnEmpty(start, history, second, sc);
    history := history + [Accept(second)];
    assert Changes(start, history, key)[1] == Wiped;
    ReportedAlternateIff(start, history, key, sc);
  }

  /** The resync of a device that holds no properties any more. */
  function Everything(key: PrevKey): Resync {
    Resync(key.realmId, key.deviceId, {key.ifaceId}, {})
  }

  lemma {:induction false} PurgeOnSet(start: World, history: seq<Entry>, key: PrevKey, sc: Schema)
    requires PrevFaithful(start, history, sc) && key in Replay(start, history).props
    ensures PrevFaithful(start, history + [Purge(Everything(key))], sc)
    ensures Changes(start, history + [Purge(Everything(key))], key) == Changes(start, history, key) + [Wiped]
    ensures key !in Replay(start, history + [Purge(Everything(key))]).props
  {
    var purge := Purge(Everything(key));
    PrevFaithfulGrows(start, history, purge, sc);
    assert (history + [purge])[..|history|] == history;
  }

  /** Setting a property that is not there is reported as created. */
  lemma {:induction false} SetOnEmpty(start: World, history: seq<Entry>, op: PersistOp, sc: Schema)
    requires PrevFaithful(start, history, sc) && WellKinded(op, sc)
    requires op.kind.PropertySet? && op.json.Some? && op.tracked && !op.prevExists
    requires op.key !in Replay(start, history).props
    ensures PrevFaithful(start, history + [Accept(op)], sc)
    ensures Changes(start, history + [Accept(op)], op.key) == Changes(start, history, op.key) + [Created]
    ensures op.key in Replay(start, history + [Accept(op)]).props
  {
    PrevFaithfulGrows(start, history, Accept(op), sc);
    ReadingAfterOne(Replay(start, history), op, op.key, sc);
    assert (history + [Accept(op)])[..|history|] == history;
  }
}
