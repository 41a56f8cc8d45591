/** Persist operations of the ingestion pipeline, the rows they become, and the
    reference semantics every flush is measured against: a serial processor that
    applies each operation once, in arrival order. */
module EngineOps {
  import opened Wrappers

  /** The canonical JSON rendering of a payload value. */
  type Json = string

  /** Addresses one property or one individual series. */
  datatype PrevKey = PrevKey(realmId: int, deviceId: int, ifaceId: int, path: string)

  datatype OpKind = Individual | Object | PropertySet | PropertyUnset

  /** One validated operation. `id` is the position of its message in the shard's
      arrival order and stands for the acknowledgment closure; `json` is None when
      the value does not render, `typed` says whether its dynamic type fits the
      declared column. */
  datatype PersistOp = PersistOp(
    id: nat, kind: OpKind, key: PrevKey, json: Option<Json>, typed: bool, ts: int,
    tracked: bool, prevExists: bool, prev: Json)

  datatype Row = Row(key: PrevKey, value: Json, ts: int)

  type Properties = map<PrevKey, Json>

  /** Whether the row conversion of an operation succeeds. */
  predicate Converts(op: PersistOp) {
    match op.kind
    case PropertyUnset => true
    case PropertySet => op.json.Some?
    case Individual => op.typed && op.json.Some?
    case Object => op.typed && op.json.Some?
  }

  predicate IsProperty(op: PersistOp) {
    op.kind.PropertySet? || op.kind.PropertyUnset?
  }

  function RowOf(op: PersistOp): Row
    requires Converts(op) && !IsProperty(op)
  {
    Row(op.key, op.json.value, op.ts)
  }

  /** Last-value-wins effect of one operation on the property table. */
  function Apply(props: Properties, op: PersistOp): Properties {
    if !Converts(op) then props else
    match op.kind
    case PropertySet => props[op.key := op.json.value]
    case PropertyUnset => props - {op.key}
    case Individual => props
    case Object => props
  }

  function ApplyAll(props: Properties, ops: seq<PersistOp>): Properties {
    if ops == [] then props else Apply(ApplyAll(props, ops[..|ops| - 1]), ops[|ops| - 1])
  }

  /** The rows of one datastream table, in arrival order. */
  function RowsOf(ops: seq<PersistOp>, kind: OpKind): seq<Row>
    requires kind.Individual? || kind.Object?
  {
    if ops == [] then [] else
    var op := ops[|ops| - 1];
    var rows := RowsOf(ops[..|ops| - 1], kind);
    if op.kind == kind && Converts(op) then rows + [RowOf(op)] else rows
  }

  ghost function Touched(ops: seq<PersistOp>): set<PrevKey> {
    set i | 0 <= i < |ops| && IsProperty(ops[i]) :: ops[i].key
  }

  ghost predicate AgreeOutside(p: Properties, q: Properties, keys: set<PrevKey>) {
    forall k :: k !in keys ==> (k in p <==> k in q) && (k in p && k in q ==> p[k] == q[k])
  }

  lemma {:induction false} ApplyAllAppend(props: Properties, a: seq<PersistOp>, b: seq<PersistOp>)
    ensures ApplyAll(props, a + b) == ApplyAll(ApplyAll(props, a), b)
  {
    if b == [] {
      assert a + b == a;
    } else {
      assert (a + b)[..|a + b| - 1] == a + b[..|b| - 1];
      ApplyAllAppend(props, a, b[..|b| - 1]);
    }
  }

  lemma {:induction false} RowsOfAppend(a: seq<PersistOp>, b: seq<PersistOp>, kind: OpKind)
    requires kind.Individual? || kind.Object?
    ensures RowsOf(a + b, kind) == RowsOf(a, kind) + RowsOf(b, kind)
  {
    if b == [] {
      assert a + b == a;
    } else {
      assert (a + b)[..|a + b| - 1] == a + b[..|b| - 1];
      RowsOfAppend(a, b[..|b| - 1], kind);
    }
  }

  /** Applying operations only changes the keys they address. */
  lemma {:induction false} ApplyAllFrame(props: Properties, ops: seq<PersistOp>)
    ensures AgreeOutside(ApplyAll(props, ops), props, Touched(ops))
  {
    if ops != [] {
      var init := ops[..|ops| - 1];
      ApplyAllFrame(props, init);
      TouchedPrefix(ops, |ops| - 1);
      assert IsProperty(ops[|ops| - 1]) ==> ops[|ops| - 1].key in Touched(ops);
    }
  }

  lemma {:induction false} TouchedPrefix(ops: seq<PersistOp>, n: nat)
    requires n <= |ops|
    ensures Touched(ops[..n]) <= Touched(ops)
  {
    forall k | k in Touched(ops[..n]) ensures k in Touched(ops) {
      var i :| 0 <= i < n && IsProperty(ops[..n][i]) && ops[..n][i].key == k;
      assert ops[i].key == k;
    }
  }

  lemma {:induction false} TouchedAppend(a: seq<PersistOp>, b: seq<PersistOp>)
    ensures Touched(a) <= Touched(a + b) && Touched(b) <= Touched(a + b)
  {
    assert forall i :: 0 <= i < |a| ==> (a + b)[i] == a[i];
    assert forall i :: 0 <= i < |b| ==> (a + b)[|a| + i] == b[i];
  }

  lemma {:induction false} TouchedHead(ops: seq<PersistOp>)
    requires ops != []
    ensures Touched(ops) == Touched(ops[1..]) + (if IsProperty(ops[0]) then {ops[0].key} else {})
  {
    forall k | k in Touched(ops) && k !in Touched(ops[1..]) ensures IsProperty(ops[0]) && k == ops[0].key {
      var i :| 0 <= i < |ops| && IsProperty(ops[i]) && ops[i].key == k;
      assert forall j :: 0 < j < |ops| ==> ops[1..][j - 1] == ops[j];
    }
  }

  /** After replaying the first `n` operations the two tables differ at most on keys
      only the remaining operations address. */
  lemma {:induction false} ReplayOutside(p: Properties, q: Properties, ops: seq<PersistOp>, n: nat)
    requires n <= |ops|
    requires AgreeOutside(p, q, Touched(ops))
    requires forall i :: 0 <= i < |ops| ==> Converts(ops[i])
    ensures AgreeOutside(ApplyAll(p, ops[..n]), ApplyAll(q, ops[..n]), Touched(ops[n..]))
  {
    if n == 0 {
      assert ops[..0] == [] && ops[0..] == ops;
    } else {
      ReplayOutside(p, q, ops, n - 1);
      assert ops[..n][..n - 1] == ops[..n - 1];
      var op := ops[n - 1];
      TouchedHead(ops[n - 1..]);
      assert ops[n - 1..][1..] == ops[n..];
    }
  }

  /** Retrying is harmless: replaying a list of converting operations over a table
      that differs from the original only on the keys the list addresses yields the
      same table as applying it to the original once. */
  lemma {:induction false} ReplayIsIdempotent(p: Properties, q: Properties, ops: seq<PersistOp>)
    requires AgreeOutside(p, q, Touched(ops))
    requires forall i :: 0 <= i < |ops| ==> Converts(ops[i])
    ensures ApplyAll(p, ops) == ApplyAll(q, ops)
  {
    ReplayOutside(p, q, ops, |ops|);
    assert ops[..|ops|] == ops;
  }

  /** An operation the flush must store: its row converts and the database takes it. */
  predicate Accepted(op: PersistOp, refused: set<nat>) {
    Converts(op) && op.id !in refused
  }

  function Live(ops: seq<PersistOp>, refused: set<nat>): seq<PersistOp> {
    if ops == [] then [] else
    var op := ops[|ops| - 1];
    var live := Live(ops[..|ops| - 1], refused);
    if Accepted(op, refused) then live + [op] else live
  }

  lemma {:induction false} LiveAppend(a: seq<PersistOp>, b: seq<PersistOp>, refused: set<nat>)
    ensures Live(a + b, refused) == Live(a, refused) + Live(b, refused)
  {
    if b == [] {
      assert a + b == a;
    } else {
      assert (a + b)[..|a + b| - 1] == a + b[..|b| - 1];
      LiveAppend(a, b[..|b| - 1], refused);
    }
  }

  lemma {:induction false} LiveConverts(ops: seq<PersistOp>, refused: set<nat>)
    ensures forall i :: 0 <= i < |Live(ops, refused)| ==> Accepted(Live(ops, refused)[i], refused)
  {
    if ops != [] { LiveConverts(ops[..|ops| - 1], refused); }
  }

  /** Without refusals, dropping the operations that do not convert changes no row. */
  lemma {:induction false} LiveRows(ops: seq<PersistOp>, refused: set<nat>, kind: OpKind)
    requires kind.Individual? || kind.Object?
    requires forall i :: 0 <= i < |ops| && Converts(ops[i]) ==> ops[i].id !in refused
    ensures RowsOf(Live(ops, refused), kind) == RowsOf(ops, kind)
  {
    if ops != [] {
      var init, op := ops[..|ops| - 1], ops[|ops| - 1];
      LiveRows(init, refused, kind);
      var live := Live(init, refused);
      assert (live + [op])[..|live|] == live;
    }
  }

  lemma {:induction false} LiveTouched(ops: seq<PersistOp>, refused: set<nat>, n: nat)
    requires n <= |ops|
    ensures Touched(Live(ops[..n], refused)) <= Touched(Live(ops, refused))
  {
    LiveAppend(ops[..n], ops[n..], refused);
    assert ops[..n] + ops[n..] == ops;
    var a := Live(ops[..n], refused);
    assert Live(ops, refused)[..|a|] == a;
    TouchedPrefix(Live(ops, refused), |a|);
  }
}
