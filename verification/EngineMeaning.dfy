/** What a run of a shard comes to, told from the fields of its messages alone. */
module EngineMeaning {
  import opened Wrappers
  import opened EngineOps
  import opened EnginePrev
  import opened EngineBatch
  import opened EngineShard

  /** The operation of a message does to the tables what the message says: a property
      is set to its value or, by an unset, removed; a sample goes to the end of the
      table of its interface's kind; a value that does not render, or a sample of the
      wrong type, leaves everything as it was. */
  lemma {:induction false} MessageMeans(w: World, id: nat, m: Inbound, op: PersistOp, sc: Schema)
    requires m.intent.Data?
    requires op == OpOf(id, m, sc).(tracked := op.tracked, prevExists := op.prevExists, prev := op.prev)
    ensures var d, next := m.intent, Advance(w, Accept(op));
            var key := PrevKey(m.realm, m.device, d.ifaceId, d.path);
            var property := d.ifaceId in sc.properties;
            && op.key == key
            && (Converts(op) <==> if property then d.unset || d.json.Some? else d.typed && d.json.Some?)
            && (property && d.unset ==> next == w.(props := w.props - {key}))
            && (property && !d.unset && d.json.Some? ==> next == w.(props := w.props[key := d.json.value]))
            && (!property && d.ifaceId !in sc.objects && d.typed && d.json.Some? ==>
                  next == w.(rows := w.rows + [Row(key, d.json.value, d.ts)]))
            && (!property && d.ifaceId in sc.objects && d.typed && d.json.Some? ==>
                  next == w.(objects := w.objects + [Row(key, d.json.value, d.ts)]))
            && (!Converts(op) ==> next == w)
  {
    assert [op][..0] == [] && ApplyAll(w.props, []) == w.props;
    assert RowsOf([op][..0], Individual) == [] && RowsOf([op][..0], Object) == [];
    assert w.rows + [] == w.rows && w.objects + [] == w.objects;
  }

  /** The message addresses the property. */
  ghost predicate Writes(m: Inbound, key: PrevKey) {
    m.intent.Data? && m.realm == key.realmId && m.device == key.deviceId &&
    m.intent.ifaceId == key.ifaceId && m.intent.path == key.path
  }

  /** The message is a resync of the property's device that does not list it. */
  ghost predicate Wipes(m: Inbound, key: PrevKey, sc: Schema) {
    m.intent.Handler? && m.intent.keep.Some? && m.realm == key.realmId && m.device == key.deviceId &&
    key.ifaceId in sc.deviceOwned && PropertyRef(key.ifaceId, key.path) !in m.intent.keep.value
  }

  /** The tables once the pending batch is in them. */
  ghost function Tables(sh: Shard): World
    reads sh, sh.be, sh.batch
  {
    WorldAfter(sh.Store(), sh.batch.ops)
  }

  /** Nothing went wrong so far: every data message is clean, and no shutdown. */
  ghost predicate Smoothly(sh: Shard)
    reads sh, sh.be, sh.batch
  {
    && sh.Valid() && sh.Chain() && !sh.be.stopping
    && forall id {:trigger sh.arrivals[id]} :: 0 <= id < sh.taken ==>
         Clean(id, sh.arrivals[id], sh.be.refused, sh.be.dark, sh.sc)
  }

  /** Message `j` leaves a property alone. */
  ghost predicate Alone(sh: Shard, j: nat, key: PrevKey)
    requires sh.Valid() && j < sh.taken
    reads sh, sh.be, sh.batch
  {
    !Writes(sh.arrivals[j], key) &&
    !(Wipes(sh.arrivals[j], key, sh.sc) && j in sh.batch.fate && sh.batch.fate[j] == Handled)
  }

  /** What the serial processor has after the first `n` messages. */
  ghost function SerialAt(sh: Shard, n: nat): World
    requires n <= |sh.log|
    reads sh
  {
    Replay(sh.start, Deeds(sh.log[..n]))
  }

  lemma {:induction false} SerialNext(sh: Shard, n: nat)
    requires n < |sh.log|
    ensures SerialAt(sh, n + 1) ==
            if sh.log[n].Some? then Advance(SerialAt(sh, n), sh.log[n].value) else SerialAt(sh, n)
  {
    assert sh.log[..n + 1] == sh.log[..n] + [sh.log[n]];
    DeedsNext(sh.log[..n], sh.log[n]);
    if sh.log[n].Some? {
      var history := Deeds(sh.log[..n]) + [sh.log[n].value];
      assert history[..|history| - 1] == Deeds(sh.log[..n]);
    }
  }

  lemma {:induction false} SerialEnd(sh: Shard)
    requires Smoothly(sh)
    ensures |sh.log| == sh.taken && SerialAt(sh, sh.taken) == Tables(sh)
  {
    assert sh.log[..sh.taken] == sh.log;
    CleanIsBlameless(sh);
  }

  /** A data message of a smooth run was accepted. */
  lemma {:induction false} DataWasAccepted(sh: Shard, n: nat)
    requires Smoothly(sh) && n < sh.taken && sh.arrivals[n].intent.Data?
    ensures |sh.log| == sh.taken && sh.log[n].Some? && sh.log[n].value.Accept?
    ensures From(sh.log[n].value.op, sh.arrivals, sh.sc) && sh.log[n].value.op.id == n
  {
    assert Leaves(sh.log[n], n, sh.arrivals, sh.batch.fate, sh.be.dark, sh.sc);
  }

  /** A message that leaves a property alone does. */
  lemma {:induction false} AloneStays(sh: Shard, n: nat, key: PrevKey)
    requires Smoothly(sh) && n < sh.taken && Alone(sh, n, key)
    ensures |sh.log| == sh.taken
    ensures key in SerialAt(sh, n + 1).props <==> key in SerialAt(sh, n).props
    ensures key in SerialAt(sh, n).props ==> SerialAt(sh, n + 1).props[key] == SerialAt(sh, n).props[key]
  {
    SerialNext(sh, n);
    assert Leaves(sh.log[n], n, sh.arrivals, sh.batch.fate, sh.be.dark, sh.sc);
    if sh.arrivals[n].intent.Data? {
      DataWasAccepted(sh, n);
      MessageMeans(SerialAt(sh, n), n, sh.arrivals[n], sh.log[n].value.op, sh.sc);
    }
  }

  lemma {:induction false} AloneSince(sh: Shard, i: nat, key: PrevKey)
    requires Smoothly(sh) && i <= sh.taken
    requires forall j {:trigger Alone(sh, j, key)} :: i <= j < sh.taken ==> Alone(sh, j, key)
    ensures |sh.log| == sh.taken
    ensures key in Tables(sh).props <==> key in SerialAt(sh, i).props
    ensures key in Tables(sh).props ==> Tables(sh).props[key] == SerialAt(sh, i).props[key]
    decreases sh.taken - i
  {
    if i == sh.taken {
      SerialEnd(sh);
    } else {
      assert Alone(sh, i, key);
      AloneStays(sh, i, key);
      AloneSince(sh, i + 1, key);
    }
  }

  /** Whatever the batching, the timers and the outages: of the messages that address a
      property, the last one decides. A set leaves its value, an unset or a handled
      resync that does not list the property leaves nothing. */
  lemma {:induction false} LastMessageDecides(sh: Shard, i: nat, key: PrevKey)
    requires Smoothly(sh) && key.ifaceId in sh.sc.properties && i < sh.taken
    requires forall j {:trigger Alone(sh, j, key)} :: i < j < sh.taken ==> Alone(sh, j, key)
    ensures Writes(sh.arrivals[i], key) && !sh.arrivals[i].intent.unset ==>
              key in Tables(sh).props && Some(Tables(sh).props[key]) == sh.arrivals[i].intent.json
    ensures Writes(sh.arrivals[i], key) && sh.arrivals[i].intent.unset ==> key !in Tables(sh).props
    ensures Wipes(sh.arrivals[i], key, sh.sc) && i in sh.batch.fate && sh.batch.fate[i] == Handled ==>
              key !in Tables(sh).props
    ensures sh.batch.ops == [] ==> Tables(sh).props == sh.be.props
  {
    AloneSince(sh, i + 1, key);
    SerialNext(sh, i);
    assert Leaves(sh.log[i], i, sh.arrivals, sh.batch.fate, sh.be.dark, sh.sc);
    assert Clean(i, sh.arrivals[i], sh.be.refused, sh.be.dark, sh.sc);
    if Writes(sh.arrivals[i], key) {
      DataWasAccepted(sh, i);
      MessageMeans(SerialAt(sh, i), i, sh.arrivals[i], sh.log[i].value.op, sh.sc);
    }
  }

  /** A property no message addresses stays as it was at the start. */
  lemma {:induction false} UnaddressedStays(sh: Shard, key: PrevKey)
    requires Smoothly(sh)
    requires forall j {:trigger Alone(sh, j, key)} :: 0 <= j < sh.taken ==> Alone(sh, j, key)
    ensures key in Tables(sh).props <==> key in sh.start.props
    ensures key in Tables(sh).props ==> Tables(sh).props[key] == sh.start.props[key]
  {
    AloneSince(sh, 0, key);
    assert sh.log[..0] == [];
  }

  /** The rows of the committed samples among the first `n` messages, of object or of
      individual interfaces, in arrival order. */
  ghost function CommittedSamples(
    arrivals: seq<Inbound>, n: nat, fate: map<nat, Fate>, objects: bool, sc: Schema): seq<Row>
    requires n <= |arrivals|
  {
    if n == 0 then [] else
    var rest, m := CommittedSamples(arrivals, n - 1, fate, objects, sc), arrivals[n - 1];
    if m.intent.Data? && m.intent.ifaceId !in sc.properties && (m.intent.ifaceId in sc.objects <==> objects) &&
       m.intent.json.Some? && n - 1 in fate && fate[n - 1] == Committed
    then rest + [Row(PrevKey(m.realm, m.device, m.intent.ifaceId, m.intent.path), m.intent.json.value, m.intent.ts)]
    else rest
  }

  ghost function TableKind(objects: bool): OpKind {
    if objects then Object else Individual
  }

  /** One more message: its row, if it was committed and is a sample of this table. */
  lemma {:induction false} SampleRow(
    ops: seq<PersistOp>, op: PersistOp, arrivals: seq<Inbound>, objects: bool, sc: Schema)
    requires From(op, arrivals, sc) && Converts(op)
    ensures var m, rows := arrivals[op.id], RowsOf(ops, TableKind(objects));
            var d := m.intent;
            && d.Data?
            && RowsOf(ops + [op], TableKind(objects)) ==
               if d.ifaceId !in sc.properties && (d.ifaceId in sc.objects <==> objects) && d.json.Some?
               then rows + [Row(PrevKey(m.realm, m.device, d.ifaceId, d.path), d.json.value, d.ts)]
               else rows
  {
    assert (ops + [op])[..|ops|] == ops;
  }

  /** The observed operations are the committed messages in arrival order. */
  ghost predicate Observes(observed: seq<PersistOp>, arrivals: seq<Inbound>, fate: map<nat, Fate>, sc: Schema) {
    && Increasing(observed)
    && (forall i {:trigger observed[i]} :: 0 <= i < |observed| ==>
          observed[i].id in fate && fate[observed[i].id] == Committed &&
          From(observed[i], arrivals, sc) && Converts(observed[i]))
    && (forall id {:trigger fate[id]} :: id in fate && fate[id] == Committed ==> id in Ids(observed))
  }

  /** `k` cuts the observed operations at message `n`. */
  ghost predicate CutsAt(observed: seq<PersistOp>, k: nat, n: nat) {
    && k <= |observed|
    && (forall i :: 0 <= i < k ==> observed[i].id < n)
    && (forall i :: k <= i < |observed| ==> observed[i].id >= n)
  }

  lemma {:induction false} CutHere(observed: seq<PersistOp>, k: nat, n: nat)
    requires Increasing(observed) && CutsAt(observed, k, n)
    ensures k < |observed| && observed[k].id == n ==> CutsAt(observed, k + 1, n + 1)
    ensures !(k < |observed| && observed[k].id == n) ==> CutsAt(observed, k, n + 1) && n !in Ids(observed)
  {
  }

  /** The observed operations up to message `n` are the committed ones, so their rows are. */
  lemma {:induction false} RowsUpTo(
    observed: seq<PersistOp>, arrivals: seq<Inbound>, n: nat, fate: map<nat, Fate>, objects: bool, sc: Schema)
    returns (k: nat)
    requires n <= |arrivals| && Observes(observed, arrivals, fate, sc)
    ensures CutsAt(observed, k, n)
    ensures RowsOf(observed[..k], TableKind(objects)) == CommittedSamples(arrivals, n, fate, objects, sc)
  {
    if n == 0 {
      k := 0;
    } else {
      k := RowsUpTo(observed, arrivals, n - 1, fate, objects, sc);
      k := NextRow(observed, arrivals, n, fate, objects, sc, k);
    }
  }

  lemma {:induction false} NextRow(
    observed: seq<PersistOp>, arrivals: seq<Inbound>, n: nat, fate: map<nat, Fate>, objects: bool, sc: Schema, at: nat)
    returns (k: nat)
    requires 0 < n <= |arrivals| && Observes(observed, arrivals, fate, sc) && CutsAt(observed, at, n - 1)
    requires RowsOf(observed[..at], TableKind(objects)) == CommittedSamples(arrivals, n - 1, fate, objects, sc)
    ensures CutsAt(observed, k, n)
    ensures RowsOf(observed[..k], TableKind(objects)) == CommittedSamples(arrivals, n, fate, objects, sc)
  {
    hide From, Converts, RowsOf, CutsAt;
    assert at <= |observed| by { CutBound(observed, at, n - 1); }
    CutHere(observed, at, n - 1);
    k := at;
    if at < |observed| && observed[at].id == n - 1 {
      SampleRow(observed[..at], observed[at], arrivals, objects, sc);
      assert observed[..at + 1] == observed[..at] + [observed[at]];
      k := at + 1;
    }
  }

  lemma {:induction false} CutBound(observed: seq<PersistOp>, k: nat, n: nat)
    requires CutsAt(observed, k, n)
    ensures k <= |observed|
  {
  }

  /** In every run, with any outages, refusals and shutdowns: the two datastream tables
      hold exactly one row for each committed sample, with the key, value and timestamp
      of its message, in arrival order. */
  lemma {:induction false} TablesHoldCommittedSamples(sh: Shard)
    requires sh.Valid()
    ensures sh.be.individual == CommittedSamples(sh.arrivals, |sh.arrivals|, sh.batch.fate, false, sh.sc)
    ensures sh.be.objects == CommittedSamples(sh.arrivals, |sh.arrivals|, sh.batch.fate, true, sh.sc)
  {
    TableHolds(sh, false);
    TableHolds(sh, true);
  }

  lemma {:induction false} TableHolds(sh: Shard, objects: bool)
    requires sh.Valid()
    ensures RowsOf(sh.batch.observed, TableKind(objects)) ==
            CommittedSamples(sh.arrivals, |sh.arrivals|, sh.batch.fate, objects, sh.sc)
  {
    var observed := sh.batch.observed;
    assert forall i :: 0 <= i < |observed| ==> (observed + sh.batch.ops)[i] == observed[i];
    forall i | 0 <= i < |observed| ensures Converts(observed[i]) {
      var id := observed[i].id;
      assert FateFits(id, sh.arrivals[id], sh.batch.fate[id], sh.be.refused, sh.sc);
    }
    var k := RowsUpTo(observed, sh.arrivals, |sh.arrivals|, sh.batch.fate, objects, sh.sc);
    assert observed[..k] == observed;
  }
}
