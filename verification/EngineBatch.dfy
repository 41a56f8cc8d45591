/** The micro-batcher of one shard: commit attempts, retries, the split of poisoned
    batches and the release of acknowledgments. */
module EngineBatch {
  import opened EngineOps
  import opened EnginePrev

  /** What finally happened to one dequeued message. */
  datatype Fate = Committed | Broken | Refused | Rejected | Handled | Abandoned

  /** Result of a store call: done, refused for good (SQLSTATE class 22 or 23), or
      failed in a way that retrying may fix. */
  datatype Outcome = Done | Permanent | Transient

  /** The store as one shard sees it, together with the signals the environment
      sends: `script` holds the verdict of every coming round trip or backoff wait.
      A run that outlives its script finds the store down and shutdown requested, so
      every finite run is some script. A failed call leaves no trace. */
  class Backend {
    const refused: set<nat>
    /** The messages whose previous-value lookup fails. */
    const dark: set<nat>
    var props: Properties
    var individual: seq<Row>
    var objects: seq<Row>
    var script: seq<bool>
    var stopping: bool

    constructor (refused: set<nat>, dark: set<nat>, props: Properties, script: seq<bool>)
      ensures this.refused == refused && this.dark == dark && this.props == props && this.script == script
      ensures individual == [] && objects == [] && !stopping
    {
      this.refused, this.dark, this.props, this.script := refused, dark, props, script;
      individual, objects, stopping := [], [], false;
    }

    method Signal() returns (up: bool)
      modifies this`script
      ensures |script| <= |old(script)| && (up ==> |script| < |old(script)|)
      ensures up <==> old(script) != [] && old(script)[0]
    {
      if script == [] {
        up := false;
      } else {
        up := script[0];
        script := script[1..];
      }
    }

    /** Waits out one backoff interval unless shutdown or cancellation arrives. */
    method Park() returns (stop: bool)
      modifies this`script, this`stopping
      ensures stop == stopping && (old(stopping) ==> stopping)
      ensures |script| <= |old(script)| && (!stop ==> |script| < |old(script)|)
    {
      var elapsed := Signal();
      stopping := stopping || !elapsed;
      stop := stopping;
    }

    /** Upserts or deletes one property row. */
    method WriteProperty(op: PersistOp) returns (r: Outcome)
      requires Converts(op) && IsProperty(op)
      modifies this`script, this`props
      ensures |script| <= |old(script)|
      ensures props == if r.Done? then Apply(old(props), op) else old(props)
      ensures r.Done? ==> op.id !in refused
      ensures r.Permanent? ==> op.id in refused
    {
      var up := Signal();
      if !up {
        r := Transient;
      } else if op.id in refused {
        r := Permanent;
      } else {
        props := Apply(props, op);
        r := Done;
      }
    }

    ghost function RefusedRow(ds: seq<PersistOp>): (d: nat)
      requires exists i :: 0 <= i < |ds| && ds[i].id in refused
      ensures d < |ds| && ds[d].id in refused
    {
      var i :| 0 <= i < |ds| && ds[i].id in refused;
      i
    }

    /** Inserts all datastream rows in one transaction. */
    method AppendDatastreams(ds: seq<PersistOp>) returns (r: Outcome)
      modifies this`script, this`individual, this`objects
      ensures |script| <= |old(script)|
      ensures r.Done? ==> individual == old(individual) + RowsOf(ds, Individual)
      ensures r.Done? ==> objects == old(objects) + RowsOf(ds, Object)
      ensures r.Done? ==> forall i :: 0 <= i < |ds| ==> ds[i].id !in refused
      ensures !r.Done? ==> individual == old(individual) && objects == old(objects)
      ensures r.Permanent? ==> exists i :: 0 <= i < |ds| && ds[i].id in refused
    {
      var up := Signal();
      if !up {
        r := Transient;
      } else if exists i :: 0 <= i < |ds| && ds[i].id in refused {
        r := Permanent;
      } else {
        individual := individual + RowsOf(ds, Individual);
        objects := objects + RowsOf(ds, Object);
        r := Done;
      }
    }
  }

  ghost function Ids(ops: seq<PersistOp>): set<nat> {
    set i | 0 <= i < |ops| :: ops[i].id
  }

  ghost predicate Increasing(ops: seq<PersistOp>) {
    forall i, j :: 0 <= i < j < |ops| ==> ops[i].id < ops[j].id
  }

  ghost predicate NoDuplicates(ids: seq<nat>) {
    forall i, j :: 0 <= i < j < |ids| ==> ids[i] != ids[j]
  }

  /** The operations of a slice that ended up committed, in order. */
  ghost function CommittedOf(ops: seq<PersistOp>, fate: map<nat, Fate>): seq<PersistOp> {
    if ops == [] then [] else
    var op := ops[|ops| - 1];
    var done := CommittedOf(ops[..|ops| - 1], fate);
    if op.id in fate && fate[op.id] == Committed then done + [op] else done
  }

  /** Every operation of a settled slice has a fate that its own nature explains. */
  ghost predicate Explained(ops: seq<PersistOp>, fate: map<nat, Fate>, refused: set<nat>) {
    forall i :: 0 <= i < |ops| ==> ops[i].id in fate && Explains(fate[ops[i].id], ops[i], refused)
  }

  ghost predicate Explains(fate: Fate, op: PersistOp, refused: set<nat>) {
    match fate
    case Committed => Accepted(op, refused)
    case Broken => !Converts(op)
    case Refused => Converts(op) && op.id in refused
    case Abandoned => true
    case Rejected => false
    case Handled => false
  }

  ghost predicate NoneAbandoned(ops: seq<PersistOp>, fate: map<nat, Fate>) {
    forall i :: 0 <= i < |ops| ==> ops[i].id in fate && fate[ops[i].id] != Abandoned
  }

  ghost predicate Extends(now: map<nat, Fate>, before: map<nat, Fate>, ids: set<nat>) {
    && (forall id :: id in before ==> id in now && now[id] == before[id])
    && now.Keys <= before.Keys + ids
  }

  /** The operations a commit attempt hands to the datastream transaction. */
  function Streams(ops: seq<PersistOp>): seq<PersistOp> {
    if ops == [] then [] else
    var op := ops[|ops| - 1];
    var ds := Streams(ops[..|ops| - 1]);
    if Converts(op) && !IsProperty(op) then ds + [op] else ds
  }

  lemma {:induction false} StreamsRows(ops: seq<PersistOp>, kind: OpKind)
    requires kind.Individual? || kind.Object?
    ensures RowsOf(Streams(ops), kind) == RowsOf(ops, kind)
  {
    if ops != [] {
      var init, op := ops[..|ops| - 1], ops[|ops| - 1];
      StreamsRows(init, kind);
      var ds := Streams(init);
      assert (ds + [op])[..|ds|] == ds;
    }
  }

  /** The transaction holds exactly the converting datastream operations of the slice. */
  lemma {:induction false} StreamsMember(ops: seq<PersistOp>, x: PersistOp)
    ensures x in Streams(ops) <==> x in ops && Converts(x) && !IsProperty(x)
  {
    if ops != [] {
      var init, op := ops[..|ops| - 1], ops[|ops| - 1];
      StreamsMember(init, x);
      assert ops == init + [op];
    }
  }

  /** A transaction without refused rows comes from a slice without refused rows. */
  lemma {:induction false} StreamsClean(ops: seq<PersistOp>, refused: set<nat>)
    requires forall d :: 0 <= d < |Streams(ops)| ==> Streams(ops)[d].id !in refused
    ensures forall i :: 0 <= i < |ops| && Converts(ops[i]) && !IsProperty(ops[i]) ==> ops[i].id !in refused
  {
    forall i | 0 <= i < |ops| && Converts(ops[i]) && !IsProperty(ops[i]) ensures ops[i].id !in refused {
      StreamsMember(ops, ops[i]);
    }
  }

  /** Every row of the transaction has its operation in the slice. */
  lemma {:induction false} StreamsSource(ops: seq<PersistOp>, d: nat) returns (i: nat)
    requires d < |Streams(ops)|
    ensures i < |ops| && ops[i] == Streams(ops)[d] && Converts(ops[i])
  {
    StreamsMember(ops, Streams(ops)[d]);
    i :| 0 <= i < |ops| && ops[i] == Streams(ops)[d];
  }

  lemma {:induction false} CommitRows(ops: seq<PersistOp>, refused: set<nat>, kind: OpKind)
    requires kind.Individual? || kind.Object?
    requires forall i :: 0 <= i < |ops| && Converts(ops[i]) ==> ops[i].id !in refused
    ensures RowsOf(Streams(ops), kind) == RowsOf(Live(ops, refused), kind)
  {
    StreamsRows(ops, kind);
    LiveRows(ops, refused, kind);
  }

  /** What one more operation adds to the reference results of a prefix. */
  lemma {:induction false} PrefixStep(ops: seq<PersistOp>, i: nat, props: Properties, refused: set<nat>)
    requires i < |ops|
    ensures Streams(ops[..i + 1]) ==
            if Converts(ops[i]) && !IsProperty(ops[i]) then Streams(ops[..i]) + [ops[i]] else Streams(ops[..i])
    ensures Accepted(ops[i], refused) || !Converts(ops[i]) || !IsProperty(ops[i]) ==>
              ApplyAll(props, Live(ops[..i + 1], refused)) ==
              Apply(ApplyAll(props, Live(ops[..i], refused)), ops[i])
  {
    var next := ops[..i + 1];
    assert next[..i] == ops[..i] && next[i] == ops[i];
    var live, op := Live(ops[..i], refused), ops[i];
    if Accepted(op, refused) {
      var more := live + [op];
      assert Live(next, refused) == more;
      assert more[..|more| - 1] == live && more[|more| - 1] == op;
      assert ApplyAll(props, more) == Apply(ApplyAll(props, live), op);
    }
  }

  /** When nothing was abandoned, exactly the live operations were committed. */
  lemma {:induction false} CommittedIsLive(ops: seq<PersistOp>, fate: map<nat, Fate>, refused: set<nat>)
    requires Explained(ops, fate, refused) && NoneAbandoned(ops, fate)
    ensures CommittedOf(ops, fate) == Live(ops, refused)
  {
    if ops != [] {
      CommittedIsLive(ops[..|ops| - 1], fate, refused);
    }
  }

  lemma {:induction false} NothingCommitted(ops: seq<PersistOp>, fate: map<nat, Fate>)
    requires forall i :: 0 <= i < |ops| ==> ops[i].id in fate && fate[ops[i].id] != Committed
    ensures CommittedOf(ops, fate) == []
  {
    if ops != [] {
      NothingCommitted(ops[..|ops| - 1], fate);
    }
  }

  /** Later fates do not change which operations of a settled slice were committed. */
  lemma {:induction false} CommittedStable(ops: seq<PersistOp>, before: map<nat, Fate>, now: map<nat, Fate>)
    requires forall id :: id in before ==> id in now && now[id] == before[id]
    requires forall i :: 0 <= i < |ops| ==> ops[i].id in before
    ensures CommittedOf(ops, now) == CommittedOf(ops, before)
  {
    if ops != [] {
      CommittedStable(ops[..|ops| - 1], before, now);
    }
  }

  lemma {:induction false} CommittedAppend(a: seq<PersistOp>, b: seq<PersistOp>, fate: map<nat, Fate>)
    ensures CommittedOf(a + b, fate) == CommittedOf(a, fate) + CommittedOf(b, fate)
  {
    if b == [] {
      assert a + b == a;
    } else {
      assert (a + b)[..|a + b| - 1] == a + b[..|b| - 1];
      CommittedAppend(a, b[..|b| - 1], fate);
    }
  }

  /** Everything a flush can change, as a value. */
  datatype Books = Books(
    props: Properties, individual: seq<Row>, objects: seq<Row>, observed: seq<PersistOp>, fate: map<nat, Fate>)

  /** Every operation gets a fate, and one its own nature explains. */
  ghost predicate SettlesFates(ops: seq<PersistOp>, refused: set<nat>, before: map<nat, Fate>, now: map<nat, Fate>) {
    Extends(now, before, Ids(ops)) && Explained(ops, now, refused)
  }

  /** The committed operations, in arrival order, each reach the observers once and
      contribute their rows once. */
  ghost predicate SettlesOutput(done: seq<PersistOp>, s: Books, t: Books) {
    && t.observed == s.observed + done
    && t.individual == s.individual + RowsOf(done, Individual)
    && t.objects == s.objects + RowsOf(done, Object)
  }

  /** Properties change only where live operations write, and unless something was
      abandoned the table is what a serial processor of the live operations leaves. */
  ghost predicate SettlesProps(live: seq<PersistOp>, complete: bool, before: Properties, now: Properties) {
    && AgreeOutside(now, before, Touched(live))
    && (complete ==> now == ApplyAll(before, live))
  }

  /** What flushing a slice does, from books `s` to books `t`. */
  ghost predicate Settles(ops: seq<PersistOp>, refused: set<nat>, s: Books, t: Books) {
    && SettlesFates(ops, refused, s.fate, t.fate)
    && SettlesOutput(CommittedOf(ops, t.fate), s, t)
    && SettlesProps(Live(ops, refused), NoneAbandoned(ops, t.fate), s.props, t.props)
  }

  /** What failed commit attempts leave behind: broken operations settled, no output,
      some of the live property writes. */
  ghost predicate Attempted(ops: seq<PersistOp>, refused: set<nat>, s: Books, t: Books) {
    && Extends(t.fate, s.fate, Ids(ops))
    && t.observed == s.observed && t.individual == s.individual && t.objects == s.objects
    && AgreeOutside(t.props, s.props, Touched(Live(ops, refused)))
  }

  lemma {:induction false} RetryAgain(ops: seq<PersistOp>, refused: set<nat>, s: Books, t: Books, u: Books)
    requires Attempted(ops, refused, s, t) && Attempted(ops, refused, t, u)
    ensures Attempted(ops, refused, s, u)
  {
  }

  /** Failed attempts do not show in the final result. */
  lemma {:induction false} RetryIsInvisible(ops: seq<PersistOp>, refused: set<nat>, s: Books, t: Books, u: Books)
    requires Attempted(ops, refused, s, t) && Settles(ops, refused, t, u)
    ensures Settles(ops, refused, s, u)
  {
    LiveConverts(ops, refused);
    ReplayIsIdempotent(t.props, s.props, Live(ops, refused));
  }

  /** Flushing two slices one after the other flushes their concatenation. */
  lemma {:induction false} SettlesAppend(
    a: seq<PersistOp>, b: seq<PersistOp>, refused: set<nat>, s: Books, t: Books, u: Books)
    requires Settles(a, refused, s, t) && Settles(b, refused, t, u)
    ensures Settles(a + b, refused, s, u)
  {
    FatesAppend(a, b, refused, s.fate, t.fate, u.fate);
    OutputAppend(CommittedOf(a, t.fate), CommittedOf(b, u.fate), s, t, u);
    LiveAppend(a, b, refused);
    PropsAppend(Live(a, refused), Live(b, refused), NoneAbandoned(a, t.fate), NoneAbandoned(b, u.fate),
                s.props, t.props, u.props);
  }

  lemma {:induction false} SettlesNext(ops: seq<PersistOp>, i: nat, refused: set<nat>, s: Books, t: Books, u: Books)
    requires i < |ops|
    requires Settles(ops[..i], refused, s, t) && Settles(ops[i..i + 1], refused, t, u)
    ensures Settles(ops[..i + 1], refused, s, u)
    ensures NoneAbandoned(ops[..i + 1], u.fate) <==>
        NoneAbandoned(ops[..i], t.fate) && NoneAbandoned(ops[i..i + 1], u.fate)
  {
    var a, b := ops[..i], ops[i..i + 1];
    assert ops[..i + 1] == a + b;
    SettlesAppend(a, b, refused, s, t, u);
    FatesAppend(a, b, refused, s.fate, t.fate, u.fate);
  }

  lemma {:induction false} IdsAppend(a: seq<PersistOp>, b: seq<PersistOp>)
    ensures Ids(a + b) == Ids(a) + Ids(b)
  {
    assert forall i :: 0 <= i < |a| ==> (a + b)[i] == a[i];
    assert forall i :: 0 <= i < |b| ==> (a + b)[|a| + i] == b[i];
  }

  lemma {:induction false} ExplainedAppend(
    a: seq<PersistOp>, b: seq<PersistOp>, fate: map<nat, Fate>, refused: set<nat>)
    ensures Explained(a + b, fate, refused) <==> Explained(a, fate, refused) && Explained(b, fate, refused)
    ensures NoneAbandoned(a + b, fate) <==> NoneAbandoned(a, fate) && NoneAbandoned(b, fate)
  {
    assert forall i :: 0 <= i < |a| ==> (a + b)[i] == a[i];
    assert forall i :: 0 <= i < |b| ==> (a + b)[|a| + i] == b[i];
  }

  lemma {:induction false} ExplainedStable(
    ops: seq<PersistOp>, refused: set<nat>, before: map<nat, Fate>, now: map<nat, Fate>, ids: set<nat>)
    requires Explained(ops, before, refused) && Extends(now, before, ids)
    ensures Explained(ops, now, refused)
    ensures NoneAbandoned(ops, now) <==> NoneAbandoned(ops, before)
    ensures CommittedOf(ops, now) == CommittedOf(ops, before)
  {
    CommittedStable(ops, before, now);
  }

  lemma {:induction false} FatesAppend(
    a: seq<PersistOp>, b: seq<PersistOp>, refused: set<nat>, s: map<nat, Fate>, t: map<nat, Fate>, u: map<nat, Fate>)
    requires SettlesFates(a, refused, s, t) && SettlesFates(b, refused, t, u)
    ensures SettlesFates(a + b, refused, s, u)
    ensures NoneAbandoned(a + b, u) <==> NoneAbandoned(a, t) && NoneAbandoned(b, u)
    ensures CommittedOf(a + b, u) == CommittedOf(a, t) + CommittedOf(b, u)
  {
    IdsAppend(a, b);
    ExplainedStable(a, refused, t, u, Ids(b));
    ExplainedAppend(a, b, u, refused);
    CommittedAppend(a, b, u);
  }

  lemma {:induction false} OutputAppend(a: seq<PersistOp>, b: seq<PersistOp>, s: Books, t: Books, u: Books)
    requires SettlesOutput(a, s, t) && SettlesOutput(b, t, u)
    ensures SettlesOutput(a + b, s, u)
  {
    assert s.observed + (a + b) == s.observed + a + b;
    RowsAppend(a, b, Individual, s.individual);
    RowsAppend(a, b, Object, s.objects);
  }

  lemma {:induction false} RowsAppend(a: seq<PersistOp>, b: seq<PersistOp>, kind: OpKind, rows: seq<Row>)
    requires kind.Individual? || kind.Object?
    ensures rows + RowsOf(a + b, kind) == rows + RowsOf(a, kind) + RowsOf(b, kind)
  {
    RowsOfAppend(a, b, kind);
  }

  lemma {:induction false} PropsAppend(
    a: seq<PersistOp>, b: seq<PersistOp>, ca: bool, cb: bool, s: Properties, t: Properties, u: Properties)
    requires SettlesProps(a, ca, s, t) && SettlesProps(b, cb, t, u)
    ensures SettlesProps(a + b, ca && cb, s, u)
  {
    TouchedAppend(a, b);
    ApplyAllAppend(s, a, b);
  }

  lemma {:induction false} SettlesNothing(refused: set<nat>, s: Books)
    ensures Settles([], refused, s, s) && NoneAbandoned([], s.fate)
  {
    assert Live([], refused) == [] && CommittedOf([], s.fate) == [];
  }

  /** The operations of a slice from `i` on are unsettled or broken. */
  ghost predicate OpenFrom(ops: seq<PersistOp>, i: nat, fate: map<nat, Fate>) {
    forall j :: i <= j < |ops| && ops[j].id in fate ==> fate[ops[j].id] == Broken && !Converts(ops[j])
  }

  lemma {:induction false} OpenRest(ops: seq<PersistOp>, i: nat, before: map<nat, Fate>, now: map<nat, Fate>)
    requires i < |ops| && Increasing(ops) && OpenFrom(ops, i, before)
    requires Extends(now, before, Ids(ops[i..i + 1]))
    ensures OpenFrom(ops, i + 1, now)
  {
    assert ops[i..i + 1] == [ops[i]];
    forall j | i + 1 <= j < |ops| && ops[j].id in now ensures ops[j].id in before {
      assert ops[i].id < ops[j].id;
    }
  }

  /** Leaving a slice unacknowledged, broken operations excepted, settles it. */
  lemma {:induction false} AbandonSettles(ops: seq<PersistOp>, refused: set<nat>, s: Books, t: Books)
    requires OpenFrom(ops, 0, s.fate) && t == s.(fate := (map id | id in Ids(ops) :: Abandoned) + s.fate)
    requires exists i :: 0 <= i < |ops| && Converts(ops[i])
    ensures Settles(ops, refused, s, t)
  {
    var k :| 0 <= k < |ops| && Converts(ops[k]);
    forall i | 0 <= i < |ops| ensures ops[i].id in t.fate && t.fate[ops[i].id] != Committed {
      assert ops[i].id in Ids(ops);
    }
    assert t.fate[ops[k].id] == Abandoned;
    NothingCommitted(ops, t.fate);
  }

  /** Moving the next live operation down keeps the live prefix of an in-place
      compaction. */
  lemma {:induction false} CompactStep(buf: seq<PersistOp>, ops: seq<PersistOp>, k: nat, i: nat, refused: set<nat>)
    requires k <= i < |ops| == |buf| && buf[i] == ops[i]
    requires buf[..k] == Live(ops[..i], refused)
    ensures Live(ops[..i + 1], refused) ==
            if Accepted(ops[i], refused) then buf[k := buf[i]][..k + 1] else buf[..k]
  {
    assert ops[..i + 1][..i] == ops[..i];
    assert buf[k := buf[i]][..k + 1] == buf[..k] + [buf[i]];
  }

  class Batcher {
    const be: Backend
    var ops: seq<PersistOp>
    /** The operations flagged broken, by id. */
    var broken: set<nat>
    var pendingPrev: map<PrevKey, PrevSnap>
    var acks: seq<nat>
    var observed: seq<PersistOp>
    ghost var fate: map<nat, Fate>
    /** Messages covered by a commit attempt that succeeded. */
    ghost var durable: set<nat>

    constructor (be: Backend)
      ensures this.be == be && Ledger() && ops == [] && pendingPrev == map[]
      ensures acks == [] && observed == [] && broken == {} && fate == map[] && durable == {}
    {
      this.be := be;
      ops, pendingPrev, acks, observed := [], map[], [], [];
      broken, fate, durable := {}, map[], {};
    }

    /** The acknowledgment ledger: every settled message that was not abandoned is
        acknowledged, once; nothing else is; and committed messages are durable. */
    ghost predicate Ledger()
      reads this`acks, this`fate, this`durable, this`broken
    {
      && NoDuplicates(acks)
      && (forall id :: id in acks <==> id in fate && fate[id] != Abandoned)
      && (forall id :: id in fate && fate[id] == Committed ==> id in durable)
      && (forall id :: id in broken <==> id in fate && fate[id] == Broken)
    }

    /** A slice under flush: only operations already marked broken are settled. */
    ghost predicate Open(ops: seq<PersistOp>)
      reads this`fate
    {
      forall i :: 0 <= i < |ops| && ops[i].id in fate ==> fate[ops[i].id] == Broken && !Converts(ops[i])
    }

    /** Settles a message and releases its acknowledgment. A committed fate demands a
        commit attempt that covered the message and succeeded beforehand. */
    method Ack(id: nat, ghost why: Fate)
      requires Ledger() && id !in fate && why != Abandoned && why != Broken
      requires why == Committed ==> id in durable
      modifies this`acks, this`fate
      ensures Ledger() && fate == old(fate)[id := why] && acks == old(acks) + [id]
    {
      acks := acks + [id];
      fate := fate[id := why];
    }

    /** Shutdown: a message is left unacknowledged. */
    ghost method Leave(id: nat)
      requires Ledger() && id !in fate
      modifies this`fate
      ensures Ledger() && fate == old(fate)[id := Abandoned]
    {
      fate := fate[id := Abandoned];
    }

    /** Consumes an operation whose row conversion failed. */
    method MarkBroken(op: PersistOp)
      requires Ledger() && op.id !in fate
      modifies this`broken, this`acks, this`fate
      ensures Ledger() && broken == old(broken) + {op.id} && fate == old(fate)[op.id := Broken]
    {
      broken := broken + {op.id};
      acks := acks + [op.id];
      fate := fate[op.id := Broken];
    }

    /** Handles one operation of a commit attempt; datastream operations only join
        the pending transaction `ds`. */
    method CommitOne(op: PersistOp, ds: seq<PersistOp>) returns (r: Outcome, ds': seq<PersistOp>)
      requires Ledger() && Open([op])
      modifies this`broken, this`acks, this`fate, be`props, be`script
      ensures Ledger() && |be.script| <= |old(be.script)|
      ensures if op.id in old(broken) || Converts(op)
              then broken == old(broken) && fate == old(fate)
              else broken == old(broken) + {op.id} && fate == old(fate)[op.id := Broken]
      ensures be.props == if r.Done? then Apply(old(be.props), op) else old(be.props)
      ensures r.Done? && Converts(op) && IsProperty(op) ==> op.id !in be.refused
      ensures r.Permanent? ==> op.id in be.refused
      ensures !r.Done? ==> Converts(op)
      ensures ds' == if Converts(op) && !IsProperty(op) then ds + [op] else ds
    {
      assert [op][0] == op;
      r, ds' := Done, ds;
      if op.id !in broken {
        if !Converts(op) {
          MarkBroken(op);
        } else if IsProperty(op) {
          r := be.WriteProperty(op);
        } else {
          ds' := ds + [op];
        }
      }
    }

    /** First half of a commit attempt: property operations as single statements in
        arrival order, datastream operations collected into `ds`. */
    method WriteProperties(ops: seq<PersistOp>) returns (r: Outcome, ds: seq<PersistOp>)
      requires Ledger() && Open(ops) && Increasing(ops)
      modifies this`broken, this`acks, this`fate, be`props, be`script
      ensures Ledger() && Open(ops) && |be.script| <= |old(be.script)|
      ensures Extends(fate, old(fate), Ids(ops))
      ensures r.Done? ==> ds == Streams(ops)
      ensures r.Done? ==> be.props == ApplyAll(old(be.props), Live(ops, be.refused))
      ensures r.Done? ==> forall i :: 0 <= i < |ops| ==> (ops[i].id in broken <==> !Converts(ops[i]))
      ensures r.Done? ==> forall i :: 0 <= i < |ops| && Converts(ops[i]) && IsProperty(ops[i]) ==>
          ops[i].id !in be.refused
      ensures !r.Done? ==> AgreeOutside(be.props, old(be.props), Touched(Live(ops, be.refused)))
      ensures !r.Done? ==> exists i :: 0 <= i < |ops| && Converts(ops[i])
      ensures r.Permanent? ==> exists i :: 0 <= i < |ops| && Converts(ops[i]) && ops[i].id in be.refused
    {
      r, ds := Done, [];
      for i := 0 to |ops|
        invariant Ledger() && Open(ops) && |be.script| <= |old(be.script)|
        invariant Extends(fate, old(fate), Ids(ops))
        invariant be.props == ApplyAll(old(be.props), Live(ops[..i], be.refused))
        invariant ds == Streams(ops[..i]) && r == Done
        invariant forall j :: 0 <= j < i ==> (ops[j].id in broken <==> !Converts(ops[j]))
        invariant forall j :: 0 <= j < i && Converts(ops[j]) && IsProperty(ops[j]) ==> ops[j].id !in be.refused
      {
        PrefixStep(ops, i, old(be.props), be.refused);
        r, ds := CommitOne(ops[i], ds);
        if !r.Done? {
          ApplyAllFrame(old(be.props), Live(ops[..i], be.refused));
          LiveTouched(ops, be.refused, i);
          return;
        }
      }
      assert ops[..|ops|] == ops;
    }

    /** One commit attempt: the property statements, then every datastream row in one
        transaction. A success makes the whole slice durable. */
    method Commit(ops: seq<PersistOp>) returns (r: Outcome)
      requires Ledger() && Open(ops) && Increasing(ops)
      modifies this`broken, this`acks, this`fate, this`durable, be`props, be`individual, be`objects, be`script
      ensures Ledger() && Open(ops) && |be.script| <= |old(be.script)|
      ensures Extends(fate, old(fate), Ids(ops))
      ensures r.Done? ==> be.props == ApplyAll(old(be.props), Live(ops, be.refused))
      ensures r.Done? ==> be.individual == old(be.individual) + RowsOf(Live(ops, be.refused), Individual)
      ensures r.Done? ==> be.objects == old(be.objects) + RowsOf(Live(ops, be.refused), Object)
      ensures r.Done? ==> Ids(ops) <= durable
      ensures r.Done? ==> forall i :: 0 <= i < |ops| ==> (ops[i].id in broken <==> !Converts(ops[i]))
      ensures r.Done? ==> forall i :: 0 <= i < |ops| && Converts(ops[i]) ==> ops[i].id !in be.refused
      ensures !r.Done? ==> be.individual == old(be.individual) && be.objects == old(be.objects)
      ensures !r.Done? ==> exists i :: 0 <= i < |ops| && Converts(ops[i])
      ensures !r.Done? ==> AgreeOutside(be.props, old(be.props), Touched(Live(ops, be.refused)))
      ensures r.Permanent? ==> exists i :: 0 <= i < |ops| && Converts(ops[i]) && ops[i].id in be.refused
    {
      var ds;
      r, ds := WriteProperties(ops);
      if !r.Done? {
        return;
      }
      if ds != [] {
        r := be.AppendDatastreams(ds);
      }
      if r.Done? {
        StreamsClean(ops, be.refused);
        durable := durable + Ids(ops);
        CommitRows(ops, be.refused, Individual);
        CommitRows(ops, be.refused, Object);
      } else {
        ghost var d := if r.Permanent? then be.RefusedRow(ds) else 0;
        ghost var i := StreamsSource(ops, d);
        ApplyAllFrame(old(be.props), Live(ops, be.refused));
      }
    }

    /** Compacts a committed slice in place down to its live operations. */
    method Compact(ops: seq<PersistOp>) returns (live: seq<PersistOp>)
      requires forall i :: 0 <= i < |ops| ==> (ops[i].id in broken <==> !Accepted(ops[i], be.refused))
      ensures live == Live(ops, be.refused)
    {
      var buf := ops;
      var k := 0;
      for i := 0 to |ops|
        invariant k <= i && |buf| == |ops|
        invariant forall j :: i <= j < |ops| ==> buf[j] == ops[j]
        invariant buf[..k] == Live(ops[..i], be.refused)
      {
        CompactStep(buf, ops, k, i, be.refused);
        if buf[i].id !in broken {
          buf := buf[k := buf[i]];
          k := k + 1;
        }
      }
      assert ops[..|ops|] == ops;
      live := buf[..k];
    }

    /** Releases the acknowledgments of a committed slice. */
    method AckAll(ops: seq<PersistOp>)
      requires Ledger() && Open(ops) && Increasing(ops) && Ids(ops) <= durable
      requires forall i :: 0 <= i < |ops| ==> (ops[i].id in broken <==> !Accepted(ops[i], be.refused))
      modifies this`acks, this`fate
      ensures Ledger() && Extends(fate, old(fate), Ids(ops)) && FinalFrom(ops, 0, |ops|)
    {
      for i := 0 to |ops|
        invariant Ledger() && Extends(fate, old(fate), Ids(ops))
        invariant FinalFrom(ops, 0, i)
        invariant forall j :: i <= j < |ops| ==> (ops[j].id in fate <==> ops[j].id in broken)
      {
        assert ops[i].id in Ids(ops);
        if ops[i].id !in broken {
          Ack(ops[i].id, Committed);
        }
      }
    }

    /** The operations from `i` to `n` are broken or committed. */
    ghost predicate FinalFrom(ops: seq<PersistOp>, i: nat, n: nat)
      requires n <= |ops|
      reads this`fate, this`broken
    {
      forall j :: i <= j < n ==>
        ops[j].id in fate && fate[ops[j].id] == (if ops[j].id in broken then Broken else Committed)
    }

    /** Releases the acknowledgments of a committed slice and feeds its live operations
        to the observers. */
    method Finalize(ops: seq<PersistOp>)
      requires Ledger() && Open(ops) && Increasing(ops) && Ids(ops) <= durable
      requires forall i :: 0 <= i < |ops| ==> (ops[i].id in broken <==> !Accepted(ops[i], be.refused))
      modifies this`acks, this`fate, this`observed
      ensures Ledger() && Extends(fate, old(fate), Ids(ops)) && FinalFrom(ops, 0, |ops|)
      ensures observed == old(observed) + Live(ops, be.refused)
    {
      AckAll(ops);
      var live := Compact(ops);
      if |live| > 0 {
        observed := observed + live;
      }
    }

    ghost function Now(): Books
      reads this`observed, this`fate, be`props, be`individual, be`objects
    {
      Books(be.props, be.individual, be.objects, observed, fate)
    }

    /** Leaves the operations of a slice unacknowledged, broken ones excepted. */
    ghost method Abandon(ops: seq<PersistOp>)
      requires Ledger() && Open(ops)
      requires exists i :: 0 <= i < |ops| && Converts(ops[i])
      modifies this`fate
      ensures Ledger() && Settles(ops, be.refused, old(Now()), Now())
    {
      ghost var s := Now();
      fate := (map id | id in Ids(ops) :: Abandoned) + fate;
      AbandonSettles(ops, be.refused, s, Now());
    }

    /** Commits the slice and, on success, finalizes it. */
    method Attempt(ops: seq<PersistOp>) returns (r: Outcome)
      requires Ledger() && Open(ops) && Increasing(ops)
      modifies this`broken, this`acks, this`fate, this`durable, this`observed, be`props, be`individual, be`objects,
          be`script
      ensures Ledger() && |be.script| <= |old(be.script)|
      ensures r.Done? ==> Settles(ops, be.refused, old(Now()), Now()) && NoneAbandoned(ops, fate)
      ensures !r.Done? ==> Open(ops) && Attempted(ops, be.refused, old(Now()), Now())
      ensures !r.Done? ==> exists i :: 0 <= i < |ops| && Converts(ops[i])
      ensures r.Permanent? ==> exists i :: 0 <= i < |ops| && Converts(ops[i]) && ops[i].id in be.refused
    {
      r := Commit(ops);
      if r.Done? {
        Finalize(ops);
        CommittedIsLive(ops, fate, be.refused);
        ApplyAllFrame(old(be.props), Live(ops, be.refused));
      }
    }

    /** Drops the single operation the database refuses. */
    method Refuse(op: PersistOp)
      requires Ledger() && op.id !in fate && Converts(op) && op.id in be.refused
      modifies this`acks, this`fate
      ensures Ledger() && Settles([op], be.refused, old(Now()), Now()) && NoneAbandoned([op], fate)
    {
      Ack(op.id, Refused);
      assert [op][..0] == [] && [op][0].id in Ids([op]);
    }

    /** Drives one slice to the end: retry after transient failures, split a poisoned
        slice into single operations, drop the single operation the database refuses,
        give up at shutdown. */
    method FlushOps(ops: seq<PersistOp>)
      requires Ledger() && Open(ops) && Increasing(ops)
      modifies this`broken, this`acks, this`fate, this`durable, this`observed, be
      decreases |ops|
      ensures Ledger() && Settles(ops, be.refused, old(Now()), Now())
      ensures (old(be.stopping) ==> be.stopping) && (NoneAbandoned(ops, fate) || be.stopping)
    {
      while true
        invariant Ledger() && Open(ops) && Attempted(ops, be.refused, old(Now()), Now())
        invariant old(be.stopping) ==> be.stopping
        decreases |be.script|
      {
        ghost var mid := Now();
        var r := Attempt(ops);
        if r.Done? {
          RetryIsInvisible(ops, be.refused, old(Now()), mid, Now());
          return;
        }
        RetryAgain(ops, be.refused, old(Now()), mid, Now());
        mid := Now();
        if r.Permanent? {
          if |ops| > 1 {
            Split(ops);
          } else {
            assert ops == [ops[0]];
            Refuse(ops[0]);
          }
          RetryIsInvisible(ops, be.refused, old(Now()), mid, Now());
          return;
        }
        var stop := be.Park();
        if stop {
          Abandon(ops);
          RetryIsInvisible(ops, be.refused, old(Now()), mid, Now());
          return;
        }
      }
    }

    /** Commits the operations of a poisoned slice one by one. */
    method Split(ops: seq<PersistOp>)
      requires Ledger() && Open(ops) && Increasing(ops) && |ops| > 1
      modifies this`broken, this`acks, this`fate, this`durable, this`observed, be
      decreases |ops|, 1
      ensures Ledger() && Settles(ops, be.refused, old(Now()), Now())
      ensures (old(be.stopping) ==> be.stopping) && (NoneAbandoned(ops, fate) || be.stopping)
    {
      hide Settles;
      ghost var s := Now();
      SettlesNothing(be.refused, s);
      assert ops[..0] == [];
      for i := 0 to |ops|
        invariant Ledger() && Settles(ops[..i], be.refused, s, Now()) && OpenFrom(ops, i, fate)
        invariant (old(be.stopping) ==> be.stopping) && (NoneAbandoned(ops[..i], fate) || be.stopping)
      {
        SplitStep(ops, i, s);
      }
      assert ops[..|ops|] == ops;
    }

    method SplitStep(ops: seq<PersistOp>, i: nat, ghost s: Books)
      requires Ledger() && Increasing(ops) && |ops| > 1 && i < |ops|
      requires OpenFrom(ops, i, fate) && Settles(ops[..i], be.refused, s, Now())
      requires NoneAbandoned(ops[..i], fate) || be.stopping
      modifies this`broken, this`acks, this`fate, this`durable, this`observed, be
      decreases |ops|, 0
      ensures Ledger() && Settles(ops[..i + 1], be.refused, s, Now()) && OpenFrom(ops, i + 1, fate)
      ensures (old(be.stopping) ==> be.stopping) && (NoneAbandoned(ops[..i + 1], fate) || be.stopping)
    {
      ghost var mid := Now();
      assert ops[i..i + 1] == [ops[i]];
      FlushOps(ops[i..i + 1]);
      OpenRest(ops, i, mid.fate, fate);
      SettlesNext(ops, i, be.refused, s, mid, Now());
    }

    /** Flushes the pending batch and forgets its previous-value chain. */
    method Flush()
      requires Ledger() && Open(ops) && Increasing(ops)
      modifies this, be
      ensures Ledger() && ops == [] && pendingPrev == map[]
      ensures Settles(old(ops), be.refused, old(Now()), Now())
      ensures (old(be.stopping) ==> be.stopping) && (NoneAbandoned(old(ops), fate) || be.stopping)
    {
      FlushOps(ops);
      ops, pendingPrev := [], map[];
    }
  }
}
