/** The flow router as a state machine: concurrent Submit and Drain calls under a
    read-write lock, bounded lanes, and lane workers that notice a quit signal. A run
    is any interleaving of the steps. */
module FlowRouter {
  import opened Wrappers

  type Key = seq<bv8>

  const FNV_OFFSET: nat := 14695981039346656037
  const FNV_PRIME: nat := 1099511628211
  const WORD: nat := 0x1_0000_0000_0000_0000

  /** Exclusive or of a 64-bit word with a byte. */
  function XorByte(h: nat, b: bv8): nat {
    h - h % 256 + (((h % 256) as bv8) ^ b) as nat
  }

  function Fnv(key: Key): nat {
    if key == [] then FNV_OFFSET
    else XorByte(Fnv(key[..|key| - 1]), key[|key| - 1]) * FNV_PRIME % WORD
  }

  /** The published 64-bit FNV-1a values of the empty string and of "a". */
  lemma {:induction false} FnvVectors()
    ensures Fnv([]) == 0xcbf2_9ce4_8422_2325 && Fnv([0x61]) == 0xaf63_dc4c_8601_ec8c
  {
    var key: Key := [0x61];
    assert key[..0] == [];
    assert (0x25 as bv8) ^ 0x61 == 0x44;
    assert XorByte(FNV_OFFSET, 0x61) == 0xcbf2_9ce4_8422_2344;
  }

  /** The lane of a key: the 64-bit FNV-1a hash of its bytes, reduced. */
  method LaneOf(key: Key, n: nat) returns (lane: nat)
    requires n > 0
    ensures lane == Fnv(key) % n && lane < n
  {
    var h := FNV_OFFSET;
    for i := 0 to |key|
      invariant h == Fnv(key[..i])
    {
      assert key[..i + 1][..i] == key[..i];
      h := XorByte(h, key[i]) * FNV_PRIME % WORD;
    }
    assert key[..|key|] == key;
    lane := h % n;
  }

  /** Lanes, their capacity, and which QoS classes drop on a full lane. */
  datatype Config = Config(lanes: nat, capacity: nat, dropQos0: bool, dropQos1: bool)

  predicate Drops(cfg: Config, qos: nat) {
    if qos == 0 then cfg.dropQos0 else cfg.dropQos1
  }

  datatype Outcome = Enqueued | Dropped | Rejected

  /** Where a Submit call is: before the read lock, before the closed check, at the
      send, before the unlock, returned. */
  datatype SubmitPc = Called | Checking | Sending | Leaving(outcome: Outcome) | Returned(outcome: Outcome)

  /** `before` are the Submit calls that had returned when this one was made. */
  datatype Caller = Caller(lane: nat, key: Key, qos: nat, before: set<nat>, pc: SubmitPc)

  /** `Nil(started)`: returned without error, with these lanes started. */
  datatype DrainPc = DrainCalled | Holding | Closing | Waiting | Nil(started: set<nat>) | TimedOut

  datatype Worker = NotStarted | Selecting | Busy(id: nat, draining: bool) | Draining | Exited

  /** `sent` and `done` are the whole history; messages go by the number of the call
      that submitted them. */
  datatype Lane = Lane(worker: Worker, buf: seq<nat>, sent: seq<nat>, done: seq<nat>)

  datatype State = State(
    callers: seq<Caller>, drains: seq<DrainPc>, lanes: seq<Lane>,
    readers: set<nat>, writer: Option<nat>, closed: bool, quit: bool)

  datatype Step =
    | Call(key: Key, qos: nat) | ReadLock(i: nat) | Check(i: nat) | Send(i: nat) | Overflow(i: nat) | ReadUnlock(i: nat)
    | CallDrain | Lock(d: nat) | Close(d: nat) | Unlock(d: nat) | LanesDone(d: nat) | Timeout(d: nat)
    | Start(l: nat) | Take(l: nat) | SeeQuit(l: nat) | TakeRest(l: nat) | Finish(l: nat) | Stop(l: nat)

  ghost predicate Init(cfg: Config, s: State) {
    && s.callers == [] && s.drains == [] && s.readers == {} && s.writer == None && !s.closed && !s.quit
    && |s.lanes| == cfg.lanes
    && forall l :: 0 <= l < |s.lanes| ==> s.lanes[l] == Lane(NotStarted, [], [], [])
  }

  ghost predicate At(s: State, i: nat, pc: SubmitPc) {
    i < |s.callers| && s.callers[i].pc == pc
  }

  ghost predicate DrainAt(s: State, d: nat, pc: DrainPc) {
    d < |s.drains| && s.drains[d] == pc
  }

  ghost predicate WorkerAt(s: State, l: nat, w: Worker) {
    l < |s.lanes| && s.lanes[l].worker == w
  }

  ghost predicate Enabled(cfg: Config, s: State, step: Step) {
    match step
    case Call(key, qos) => true
    case ReadLock(i) => At(s, i, Called) && s.writer.None?
    case Check(i) => At(s, i, Checking)
    case Send(i) => At(s, i, Sending) && s.callers[i].lane < |s.lanes| &&
        |s.lanes[s.callers[i].lane].buf| < cfg.capacity
    case Overflow(i) => At(s, i, Sending) && s.callers[i].lane < |s.lanes| && Drops(cfg, s.callers[i].qos) &&
                        |s.lanes[s.callers[i].lane].buf| >= cfg.capacity
    case ReadUnlock(i) => i < |s.callers| && s.callers[i].pc.Leaving?
    case CallDrain => true
    case Lock(d) => DrainAt(s, d, DrainCalled) && s.writer.None? && s.readers == {}
    case Close(d) => DrainAt(s, d, Holding)
    case Unlock(d) => DrainAt(s, d, Closing)
    case LanesDone(d) => DrainAt(s, d, Waiting) &&
                         forall l :: 0 <= l < |s.lanes| ==> s.lanes[l].worker.NotStarted? || s.lanes[l].worker.Exited?
    case Timeout(d) => DrainAt(s, d, Waiting)
    case Start(l) => WorkerAt(s, l, NotStarted)
    case Take(l) => WorkerAt(s, l, Selecting) && s.lanes[l].buf != []
    case SeeQuit(l) => WorkerAt(s, l, Selecting) && s.quit
    case TakeRest(l) => WorkerAt(s, l, Draining) && s.lanes[l].buf != []
    case Finish(l) => l < |s.lanes| && s.lanes[l].worker.Busy?
    case Stop(l) => WorkerAt(s, l, Draining) && s.lanes[l].buf == []
  }

  ghost function SetPc(s: State, i: nat, pc: SubmitPc): State
    requires i < |s.callers|
  {
    s.(callers := s.callers[i := s.callers[i].(pc := pc)])
  }

  ghost function SetDrain(s: State, d: nat, pc: DrainPc): State
    requires d < |s.drains|
  {
    s.(drains := s.drains[d := pc])
  }

  ghost function SetLane(s: State, l: nat, lane: Lane): State
    requires l < |s.lanes|
  {
    s.(lanes := s.lanes[l := lane])
  }

  ghost function ReturnedCalls(s: State): set<nat> {
    set i | 0 <= i < |s.callers| && s.callers[i].pc.Returned? :: i
  }

  ghost function StartedLanes(s: State): set<nat> {
    set l | 0 <= l < |s.lanes| && !s.lanes[l].worker.NotStarted? :: l
  }

  ghost function After(cfg: Config, s: State, step: Step): State
    requires cfg.lanes > 0 && Enabled(cfg, s, step)
  {
    match step
    case Call(key, qos) =>
      s.(callers := s.callers + [Caller(Fnv(key) % cfg.lanes, key, qos, ReturnedCalls(s), Called)])
    case ReadLock(i) => SetPc(s, i, Checking).(readers := s.readers + {i})
    case Check(i) => SetPc(s, i, if s.closed then Leaving(Rejected) else Sending)
    case Send(i) =>
      var l := s.callers[i].lane;
      SetLane(SetPc(s, i, Leaving(Enqueued)), l,
          s.lanes[l].(buf := s.lanes[l].buf + [i], sent := s.lanes[l].sent + [i]))
    case Overflow(i) => SetPc(s, i, Leaving(Dropped))
    case ReadUnlock(i) => SetPc(s, i, Returned(s.callers[i].pc.outcome)).(readers := s.readers - {i})
    case CallDrain => s.(drains := s.drains + [DrainCalled])
    case Lock(d) => SetDrain(s, d, Holding).(writer := Some(d))
    case Close(d) => SetDrain(s, d, Closing).(closed := true, quit := true)
    case Unlock(d) => SetDrain(s, d, Waiting).(writer := None)
    case LanesDone(d) => SetDrain(s, d, Nil(StartedLanes(s)))
    case Timeout(d) => SetDrain(s, d, TimedOut)
    case Start(l) => SetLane(s, l, s.lanes[l].(worker := Selecting))
    case Take(l) => SetLane(s, l, s.lanes[l].(worker := Busy(s.lanes[l].buf[0], false), buf := s.lanes[l].buf[1..]))
    case SeeQuit(l) => SetLane(s, l, s.lanes[l].(worker := Draining))
    case TakeRest(l) => SetLane(s, l, s.lanes[l].(worker := Busy(s.lanes[l].buf[0], true), buf := s.lanes[l].buf[1..]))
    case Finish(l) =>
      var w := s.lanes[l].worker;
      SetLane(s, l, s.lanes[l].(worker := if w.draining then Draining else Selecting, done := s.lanes[l].done + [w.id]))
    case Stop(l) => SetLane(s, l, s.lanes[l].(worker := Exited))
  }

  ghost predicate Moves(cfg: Config, s: State, step: Step, t: State) {
    cfg.lanes > 0 && Enabled(cfg, s, step) && t == After(cfg, s, step)
  }

  /** `states` is what the steps go through, each enabled where it is taken. */
  ghost predicate Execution(cfg: Config, states: seq<State>, steps: seq<Step>) {
    && cfg.lanes > 0 && |states| == |steps| + 1 && Init(cfg, states[0])
    && forall i, j :: 0 <= i < j < |states| && j == i + 1 ==>
         Moves(cfg, states[i], steps[i], states[j])
  }

  /** The lock is held by exactly the calls between lock and unlock, readers exclude
      the writer, and a call past the closed check still finds the router open. */
  ghost predicate LockInv(s: State) {
    && (forall i :: i in s.readers ==> i < |s.callers|)
    && (forall i :: 0 <= i < |s.callers| ==>
        (i in s.readers <==> !s.callers[i].pc.Called? && !s.callers[i].pc.Returned?))
    && (s.writer.Some? ==> s.readers == {})
    && (forall d :: 0 <= d < |s.drains| && (s.drains[d].Holding? || s.drains[d].Closing?) ==> s.writer == Some(d))
    && s.closed == s.quit
    && (s.closed ==> forall i :: 0 <= i < |s.callers| ==> !s.callers[i].pc.Sending?)
  }

  ghost function InHand(w: Worker): seq<nat> {
    if w.Busy? then [w.id] else []
  }

  /** Everything sent is processed, in hand or buffered, in that order; a worker drains
      only after quit, and exits only with nothing left. */
  ghost predicate LaneInv(cfg: Config, s: State, lane: Lane) {
    && lane.sent == lane.done + InHand(lane.worker) + lane.buf
    && |lane.buf| <= cfg.capacity
    && (lane.worker.Draining? || lane.worker.Exited? || (lane.worker.Busy? && lane.worker.draining) ==> s.quit)
    && (lane.worker.Exited? ==> lane.buf == [])
    && (lane.worker.NotStarted? ==> lane.done == [])
  }

  ghost predicate LanesInv(cfg: Config, s: State) {
    && |s.lanes| == cfg.lanes
    && (forall l :: 0 <= l < |s.lanes| ==> LaneInv(cfg, s, s.lanes[l]))
    && (forall d :: 0 <= d < |s.drains| && !s.drains[d].DrainCalled? && !s.drains[d].Holding? ==> s.quit)
    && (forall d, l :: 0 <= d < |s.drains| && 0 <= l < |s.lanes| && s.drains[d].Nil? && l in s.drains[d].started ==>
          s.lanes[l].worker.Exited?)
  }

  ghost predicate Accepted(c: Caller) {
    c.pc == Leaving(Enqueued) || c.pc == Returned(Enqueued)
  }

  /** A lane's log is exactly the accepted calls of its keys, each once, and a call that
      had returned before another was made comes first. */
  ghost predicate LogInv(s: State, l: nat)
    requires l < |s.lanes|
  {
    var sent := s.lanes[l].sent;
    && (forall p :: 0 <= p < |sent| ==>
        sent[p] < |s.callers| && s.callers[sent[p]].lane == l && Accepted(s.callers[sent[p]]))
    && (forall p, q :: 0 <= p < q < |sent| ==> sent[p] != sent[q] && sent[q] !in s.callers[sent[p]].before)
    && (forall i :: 0 <= i < |s.callers| && s.callers[i].lane == l && Accepted(s.callers[i]) ==> i in sent)
  }

  ghost predicate CallInv(cfg: Config, c: Caller) {
    && cfg.lanes > 0 && c.lane == Fnv(c.key) % cfg.lanes
    && (c.pc == Leaving(Dropped) || c.pc == Returned(Dropped) ==> Drops(cfg, c.qos))
  }

  ghost predicate LogsInv(cfg: Config, s: State) {
    && (forall i :: 0 <= i < |s.callers| ==> CallInv(cfg, s.callers[i]))
    && (forall i :: 0 <= i < |s.callers| ==> s.callers[i].before <= ReturnedCalls(s) && i !in s.callers[i].before)
    && (forall l {:trigger LogInv(s, l)} :: 0 <= l < |s.lanes| ==> LogInv(s, l))
  }

  lemma {:induction false} LockStep(cfg: Config, s: State, step: Step)
    requires cfg.lanes > 0 && Enabled(cfg, s, step) && LockInv(s)
    ensures LockInv(After(cfg, s, step))
  {
  }

  lemma {:induction false} OneLaneStep(cfg: Config, s: State, step: Step, l: nat)
    requires cfg.lanes > 0 && Enabled(cfg, s, step) && LockInv(s) && l < |s.lanes| && LaneInv(cfg, s, s.lanes[l])
    ensures |After(cfg, s, step).lanes| == |s.lanes|
    ensures LaneInv(cfg, After(cfg, s, step), After(cfg, s, step).lanes[l])
  {
    var t := After(cfg, s, step);
    if s.lanes[l] == t.lanes[l] {
      assert s.quit ==> t.quit;
    } else if step.Send? {
      LaneSend(cfg, s, step.i);
    } else if step.Take? || step.TakeRest? {
      LaneTake(s.lanes[l], t.lanes[l].worker);
    }
  }

  lemma {:induction false} LaneSend(cfg: Config, s: State, i: nat)
    requires cfg.lanes > 0 && Enabled(cfg, s, Send(i)) && LockInv(s) && LaneInv(cfg, s, s.lanes[s.callers[i].lane])
    ensures var t := After(cfg, s, Send(i)); LaneInv(cfg, t, t.lanes[s.callers[i].lane])
  {
    var lane := s.lanes[s.callers[i].lane];
    assert lane.done + InHand(lane.worker) + lane.buf + [i] == lane.done + InHand(lane.worker) + (lane.buf + [i]);
  }

  lemma {:induction false} LaneTake(lane: Lane, w: Worker)
    requires lane.sent == lane.done + lane.buf && lane.buf != [] && w.Busy? && w.id == lane.buf[0]
    ensures lane.sent == lane.done + InHand(w) + lane.buf[1..]
  {
    assert lane.buf == [lane.buf[0]] + lane.buf[1..];
  }

  lemma {:induction false} LaneStep(cfg: Config, s: State, step: Step)
    requires cfg.lanes > 0 && Enabled(cfg, s, step) && LockInv(s) && LanesInv(cfg, s)
    ensures LanesInv(cfg, After(cfg, s, step))
  {
    var t := After(cfg, s, step);
    forall l | 0 <= l < |t.lanes| ensures LaneInv(cfg, t, t.lanes[l]) {
      OneLaneStep(cfg, s, step, l);
    }
    DrainStep(cfg, s, step);
  }

  lemma {:induction false} DrainStep(cfg: Config, s: State, step: Step)
    requires cfg.lanes > 0 && Enabled(cfg, s, step) && LanesInv(cfg, s)
    ensures var t := After(cfg, s, step);
            && (forall d :: 0 <= d < |t.drains| && !t.drains[d].DrainCalled? && !t.drains[d].Holding? ==> t.quit)
            && (forall d, l :: 0 <= d < |t.drains| && 0 <= l < |t.lanes| && t.drains[d].Nil? &&
                               l in t.drains[d].started ==>
                  t.lanes[l].worker.Exited?)
  {
  }

  lemma {:induction false} LogStep(cfg: Config, s: State, step: Step)
    requires cfg.lanes > 0 && Enabled(cfg, s, step) && LogsInv(cfg, s) && |s.lanes| == cfg.lanes
    ensures LogsInv(cfg, After(cfg, s, step))
  {
    var t := After(cfg, s, step);
    CallStep(cfg, s, step);
    forall l | 0 <= l < |t.lanes| ensures LogInv(t, l) {
      assert LogInv(s, l);
      if step.Send? && s.callers[step.i].lane == l {
        LogSend(cfg, s, step.i);
      } else {
        LogOther(cfg, s, step, l);
      }
    }
  }

  lemma {:induction false} LogOther(cfg: Config, s: State, step: Step, l: nat)
    requires cfg.lanes > 0 && Enabled(cfg, s, step) && l < |s.lanes| && LogInv(s, l)
    requires !(step.Send? && s.callers[step.i].lane == l)
    ensures LogInv(After(cfg, s, step), l)
  {
    LogFrame(s, After(cfg, s, step), l);
  }

  lemma {:induction false} CallStep(cfg: Config, s: State, step: Step)
    requires cfg.lanes > 0 && Enabled(cfg, s, step)
    requires forall i :: 0 <= i < |s.callers| ==> CallInv(cfg, s.callers[i])
    requires forall i :: 0 <= i < |s.callers| ==> s.callers[i].before <= ReturnedCalls(s) && i !in s.callers[i].before
    ensures var t := After(cfg, s, step);
            && (forall i :: 0 <= i < |t.callers| ==> CallInv(cfg, t.callers[i]))
            && (forall i :: 0 <= i < |t.callers| ==>
                t.callers[i].before <= ReturnedCalls(t) && i !in t.callers[i].before)
  {
    var t := After(cfg, s, step);
    forall i | i in ReturnedCalls(s) ensures i in ReturnedCalls(t) {
      assert t.callers[i] == s.callers[i];
    }
  }

  /** A step that neither sends to the lane nor undoes a call keeps its log. */
  lemma {:induction false} LogFrame(s: State, t: State, l: nat)
    requires l < |s.lanes| && l < |t.lanes| && s.lanes[l].sent == t.lanes[l].sent && LogInv(s, l)
    requires |s.callers| <= |t.callers|
    requires forall i :: 0 <= i < |s.callers| ==>
               t.callers[i].lane == s.callers[i].lane && t.callers[i].before == s.callers[i].before
    requires forall i :: 0 <= i < |s.callers| && s.callers[i].lane == l ==>
        (Accepted(t.callers[i]) <==> Accepted(s.callers[i]))
    requires forall i :: |s.callers| <= i < |t.callers| ==> !Accepted(t.callers[i])
    ensures LogInv(t, l)
  {
  }

  lemma {:induction false} LogSend(cfg: Config, s: State, i: nat)
    requires cfg.lanes > 0 && Enabled(cfg, s, Send(i)) && LogInv(s, s.callers[i].lane)
    requires forall j :: 0 <= j < |s.callers| ==> s.callers[j].before <= ReturnedCalls(s)
    ensures LogInv(After(cfg, s, Send(i)), s.callers[i].lane)
  {
    var t := After(cfg, s, Send(i));
    var l := s.callers[i].lane;
    var sent, more := s.lanes[l].sent, t.lanes[l].sent;
    assert more == sent + [i];
    forall p, q | 0 <= p < q < |more| ensures more[p] != more[q] && more[q] !in t.callers[more[p]].before {
      assert more[p] == sent[p];
      assert i !in ReturnedCalls(s);
    }
    forall j | 0 <= j < |t.callers| && t.callers[j].lane == l && Accepted(t.callers[j]) ensures j in more {
      if j != i {
        assert j in sent;
      }
    }
  }

  lemma {:induction false} StepAt(cfg: Config, states: seq<State>, steps: seq<Step>, k: nat)
    requires Execution(cfg, states, steps) && k < |steps|
    ensures Enabled(cfg, states[k], steps[k]) && states[k + 1] == After(cfg, states[k], steps[k])
  {
    var j := k + 1;
    assert Moves(cfg, states[k], steps[k], states[j]);
  }

  /** The invariants hold throughout every run. */
  lemma {:induction false} Reachable(cfg: Config, states: seq<State>, steps: seq<Step>, k: nat)
    requires Execution(cfg, states, steps) && k < |states|
    ensures LockInv(states[k]) && LanesInv(cfg, states[k]) && LogsInv(cfg, states[k])
    decreases k
  {
    if k > 0 {
      Reachable(cfg, states, steps, k - 1);
      StepAt(cfg, states, steps, k - 1);
      LockStep(cfg, states[k - 1], steps[k - 1]);
      LaneStep(cfg, states[k - 1], steps[k - 1]);
      LogStep(cfg, states[k - 1], steps[k - 1]);
    }
  }

  /** Quit is closed in both states and no lane received anything in between. */
  ghost predicate Frozen(s: State, t: State) {
    s.quit && t.quit && |t.lanes| == |s.lanes| && forall l :: 0 <= l < |s.lanes| ==> t.lanes[l].sent == s.lanes[l].sent
  }

  lemma {:induction false} FrozenStep(cfg: Config, s: State, step: Step)
    requires cfg.lanes > 0 && Enabled(cfg, s, step) && LockInv(s) && s.quit
    ensures Frozen(s, After(cfg, s, step))
  {
  }

  lemma {:induction false} FrozenAt(cfg: Config, states: seq<State>, steps: seq<Step>, k: nat)
    requires Execution(cfg, states, steps) && k < |steps| && states[k].quit
    ensures Frozen(states[k], states[k + 1])
  {
    Reachable(cfg, states, steps, k);
    StepAt(cfg, states, steps, k);
    FrozenStep(cfg, states[k], steps[k]);
  }

  lemma {:induction false} FrozenLonger(r: State, s: State, t: State)
    requires Frozen(r, s) && Frozen(s, t)
    ensures Frozen(r, t)
  {
  }

  /** Once quit is closed no lane ever receives another message. */
  lemma {:induction false} NothingSentAfterQuit(cfg: Config, states: seq<State>, steps: seq<Step>, j: nat, k: nat)
    requires Execution(cfg, states, steps) && j <= k < |states| && states[j].quit
    ensures Frozen(states[j], states[k])
    decreases k
  {
    if j < k {
      NothingSentAfterQuit(cfg, states, steps, j, k - 1);
      FrozenAt(cfg, states, steps, k - 1);
      FrozenLonger(states[j], states[k - 1], states[k]);
    }
  }

  ghost predicate NoRepeats(s: seq<nat>) {
    forall p, q :: 0 <= p < q < |s| ==> s[p] != s[q]
  }

  /** In every run, once a Drain call has returned nil, each lane that was started by
      then has finished: it has processed what was sent to it, in that order, every
      accepted call exactly once and no other call at all. */
  lemma {:induction false} DrainIsComplete(cfg: Config, states: seq<State>, steps: seq<Step>, k: nat, d: nat, l: nat)
    requires Execution(cfg, states, steps) && k < |states|
    requires d < |states[k].drains| && states[k].drains[d].Nil? && l in states[k].drains[d].started && l < cfg.lanes
    ensures var s := states[k];
            && |s.lanes| == cfg.lanes && s.lanes[l].worker.Exited? && s.lanes[l].buf == []
            && s.lanes[l].done == s.lanes[l].sent && NoRepeats(s.lanes[l].done)
            && forall i :: 0 <= i < |s.callers| && s.callers[i].lane == l ==>
                (i in s.lanes[l].done <==> Accepted(s.callers[i]))
  {
    Reachable(cfg, states, steps, k);
    var s := states[k];
    var lane := s.lanes[l];
    assert LaneInv(cfg, s, lane) && LogInv(s, l);
    assert lane.done + [] + [] == lane.done;
  }

  /** At the moment Drain returns nil, a lane has processed everything sent to it
      exactly if it was ever started or nothing was sent. */
  lemma {:induction false} UnstartedLaneKeepsItsMessages(
    cfg: Config, states: seq<State>, steps: seq<Step>, k: nat, d: nat, l: nat)
    requires Execution(cfg, states, steps) && k < |steps| && steps[k] == LanesDone(d) && l < cfg.lanes
    ensures |states[k].lanes| == cfg.lanes
    ensures states[k].lanes[l].done == states[k].lanes[l].sent <==>
            !states[k].lanes[l].worker.NotStarted? || states[k].lanes[l].sent == []
  {
    Reachable(cfg, states, steps, k);
    var s := states[k];
    StepAt(cfg, states, steps, k);
    var lane := s.lanes[l];
    assert LaneInv(cfg, s, lane);
    assert lane.done + [] + lane.buf == lane.done + lane.buf;
  }

  /** In every state: what a lane has processed is a prefix of what was sent to it, so
      of two accepted calls with the same key, one made after the other returned is
      never processed first. */
  lemma {:induction false} KeyOrder(
    cfg: Config, states: seq<State>, steps: seq<Step>, k: nat, i: nat, j: nat) returns (p: nat, q: nat)
    requires Execution(cfg, states, steps) && k < |states| && i < |states[k].callers| && j < |states[k].callers|
    requires states[k].callers[i].key == states[k].callers[j].key && i in states[k].callers[j].before
    requires Accepted(states[k].callers[i]) && Accepted(states[k].callers[j])
    ensures |states[k].lanes| == cfg.lanes && cfg.lanes > 0
    ensures var lane := states[k].lanes[Fnv(states[k].callers[i].key) % cfg.lanes];
            && lane.done <= lane.sent && NoRepeats(lane.sent)
            && p < q < |lane.sent| && lane.sent[p] == i && lane.sent[q] == j
            && (j in lane.done ==> i in lane.done[..p + 1] && q < |lane.done|)
  {
    Reachable(cfg, states, steps, k);
    var s := states[k];
    assert CallInv(cfg, s.callers[i]) && CallInv(cfg, s.callers[j]);
    var l := s.callers[i].lane;
    assert LogInv(s, l) && LaneInv(cfg, s, s.lanes[l]);
    p, q := OrderInLog(s, l, i, j);
    DonePrefix(s.lanes[l], p, q);
  }

  lemma {:induction false} OrderInLog(s: State, l: nat, i: nat, j: nat) returns (p: nat, q: nat)
    requires l < |s.lanes| && LogInv(s, l) && i < |s.callers| && j < |s.callers|
    requires s.callers[i].lane == l && s.callers[j].lane == l && Accepted(s.callers[i]) && Accepted(s.callers[j])
    requires i in s.callers[j].before && i !in s.callers[i].before
    ensures p < q < |s.lanes[l].sent| && s.lanes[l].sent[p] == i && s.lanes[l].sent[q] == j
  {
    p :| 0 <= p < |s.lanes[l].sent| && s.lanes[l].sent[p] == i;
    q :| 0 <= q < |s.lanes[l].sent| && s.lanes[l].sent[q] == j;
  }

  lemma {:induction false} DonePrefix(lane: Lane, p: nat, q: nat)
    requires lane.sent == lane.done + InHand(lane.worker) + lane.buf && NoRepeats(lane.sent) && p < q < |lane.sent|
    ensures lane.done <= lane.sent
    ensures lane.sent[q] in lane.done ==> lane.sent[p] in lane.done[..p + 1] && q < |lane.done|
  {
    if lane.sent[q] in lane.done {
      var r :| 0 <= r < |lane.done| && lane.done[r] == lane.sent[q];
      assert lane.sent[r] == lane.done[r];
      assert lane.done[..p + 1][p] == lane.sent[p];
    }
  }

  /** A call is refused only by a closed router, and dropped only under the overflow
      policy of its QoS: with a blocking policy an open router loses nothing. */
  lemma {:induction false} OutcomesAreJustified(cfg: Config, states: seq<State>, steps: seq<Step>, k: nat, i: nat)
    requires Execution(cfg, states, steps) && k < |states| && i < |states[k].callers|
    ensures states[k].callers[i].pc == Returned(Dropped) ==> Drops(cfg, states[k].callers[i].qos)
    ensures states[k].callers[i].pc == Returned(Rejected) ==> states[k].closed
  {
    Reachable(cfg, states, steps, k);
    assert CallInv(cfg, states[k].callers[i]);
    RejectedByClosed(cfg, states, steps, k);
  }

  ghost predicate DropPc(pc: SubmitPc) {
    pc == Leaving(Dropped) || pc == Returned(Dropped)
  }

  /** A dropped call was dropped at a step where its lane held as many messages as it
      can, QoS 0 only with its own overflow policy and the others only with theirs. */
  lemma {:induction false} DroppedWhenFull(cfg: Config, states: seq<State>, steps: seq<Step>, k: nat, i: nat)
    returns (n: nat)
    requires Execution(cfg, states, steps) && k < |states|
    requires i < |states[k].callers| && DropPc(states[k].callers[i].pc)
    ensures n < k && steps[n] == Overflow(i) && i < |states[n].callers|
    ensures states[n].callers[i].lane == states[k].callers[i].lane < |states[n].lanes|
    ensures |states[n].lanes[states[n].callers[i].lane].buf| == cfg.capacity
    ensures if states[k].callers[i].qos == 0 then cfg.dropQos0 else cfg.dropQos1
    decreases k
  {
    hide After, LockInv, LogsInv;
    if k > 0 {
      StepAt(cfg, states, steps, k - 1);
      var s := states[k - 1];
      DropStep(cfg, s, steps[k - 1], i);
      if i < |s.callers| && DropPc(s.callers[i].pc) {
        n := DroppedWhenFull(cfg, states, steps, k - 1, i);
      } else {
        n := k - 1;
        Reachable(cfg, states, steps, n);
        assert LaneInv(cfg, s, s.lanes[s.callers[i].lane]);
      }
    }
  }

  /** Only an overflow makes a dropped call, and calls keep their lane and QoS. */
  lemma {:induction false} DropStep(cfg: Config, s: State, step: Step, i: nat)
    requires cfg.lanes > 0 && Enabled(cfg, s, step) && i < |After(cfg, s, step).callers|
    requires DropPc(After(cfg, s, step).callers[i].pc)
    ensures i < |s.callers|
    ensures After(cfg, s, step).callers[i].lane == s.callers[i].lane
    ensures After(cfg, s, step).callers[i].qos == s.callers[i].qos
    ensures DropPc(s.callers[i].pc) || step == Overflow(i)
  {
  }

  ghost predicate Refused(pc: SubmitPc) {
    pc == Leaving(Rejected) || pc == Returned(Rejected)
  }

  lemma {:induction false} RejectedByClosed(cfg: Config, states: seq<State>, steps: seq<Step>, k: nat)
    requires Execution(cfg, states, steps) && k < |states|
    ensures forall i :: 0 <= i < |states[k].callers| && Refused(states[k].callers[i].pc) ==> states[k].closed
    decreases k
  {
    if k > 0 {
      RejectedByClosed(cfg, states, steps, k - 1);
      StepAt(cfg, states, steps, k - 1);
    }
  }

  lemma {:induction false} Extend(cfg: Config, states: seq<State>, steps: seq<Step>, step: Step)
    requires Execution(cfg, states, steps) && Enabled(cfg, states[|states| - 1], step)
    ensures Execution(cfg, states + [After(cfg, states[|states| - 1], step)], steps + [step])
  {
    var more, all := states + [After(cfg, states[|states| - 1], step)], steps + [step];
    forall i, j | 0 <= i < j < |more| && j == i + 1 ensures Moves(cfg, more[i], all[i], more[j]) {
      if j < |states| {
        assert Moves(cfg, states[i], steps[i], states[j]);
      }
    }
  }

  /** A one-lane router, never started, with one Submit call. */
  ghost function OneCall(pc: SubmitPc, sent: seq<nat>, readers: set<nat>): State {
    State([Caller(0, [], 1, {}, pc)], [], [Lane(NotStarted, sent, sent, [])], readers, None, false, false)
  }

  lemma {:induction false} OneCallSteps(cfg: Config)
    requires cfg == Config(1, 1, false, false)
    ensures Moves(cfg, OneCall(Called, [], {}), ReadLock(0), OneCall(Checking, [], {0}))
    ensures Moves(cfg, OneCall(Checking, [], {0}), Check(0), OneCall(Sending, [], {0}))
    ensures Moves(cfg, OneCall(Sending, [], {0}), Send(0), OneCall(Leaving(Enqueued), [0], {0}))
    ensures Moves(cfg, OneCall(Leaving(Enqueued), [0], {0}), ReadUnlock(0), OneCall(Returned(Enqueued), [0], {}))
  {
    assert {} + {0} == {0} && {0} - {0} == {};
    var s := OneCall(Sending, [], {0});
    var none: seq<nat> := [];
    assert none + [0] == [0];
    assert After(cfg, s, Send(0)).lanes[0] == Lane(NotStarted, none + [0], none + [0], []);
  }

  lemma {:induction false} Continue(cfg: Config, states: seq<State>, steps: seq<Step>, s: State, step: Step, t: State)
    returns (more: seq<State>, all: seq<Step>)
    requires Execution(cfg, states, steps) && states[|states| - 1] == s && Moves(cfg, s, step, t)
    ensures Execution(cfg, more, all) && more == states + [t] && all == steps + [step] && more[|more| - 1] == t
  {
    Extend(cfg, states, steps, step);
    more, all := states + [t], steps + [step];
  }

  lemma {:induction false} SubmitUnstarted(cfg: Config) returns (states: seq<State>, steps: seq<Step>)
    requires cfg == Config(1, 1, false, false)
    ensures Execution(cfg, states, steps) && states[|states| - 1] == OneCall(Returned(Enqueued), [0], {})
  {
    var s0 := State([], [], [Lane(NotStarted, [], [], [])], {}, None, false, false);
    states, steps := [s0], [];
    assert Fnv([]) % 1 == 0 && ReturnedCalls(s0) == {};
    assert After(cfg, s0, Call([], 1)) == OneCall(Called, [], {});
    OneCallSteps(cfg);
    states, steps := Continue(cfg, states, steps, s0, Call([], 1), OneCall(Called, [], {}));
    states, steps := Continue(cfg, states, steps, OneCall(Called, [], {}), ReadLock(0), OneCall(Checking, [], {0}));
    states, steps := Continue(cfg, states, steps, OneCall(Checking, [], {0}), Check(0), OneCall(Sending, [], {0}));
    states, steps := Continue(cfg, states, steps, OneCall(Sending, [], {0}), Send(0),
        OneCall(Leaving(Enqueued), [0], {0}));
    states, steps := Continue(cfg, states, steps, OneCall(Leaving(Enqueued), [0], {0}), ReadUnlock(0),
        OneCall(Returned(Enqueued), [0], {}));
  }

  ghost function OneDrain(pc: DrainPc, writer: Option<nat>, closed: bool): State {
    OneCall(Returned(Enqueued), [0], {}).(drains := [pc], writer := writer, closed := closed, quit := closed)
  }

  lemma {:induction false} OneDrainSteps(cfg: Config)
    requires cfg == Config(1, 1, false, false)
    ensures Moves(cfg, OneCall(Returned(Enqueued), [0], {}), CallDrain, OneDrain(DrainCalled, None, false))
    ensures Moves(cfg, OneDrain(DrainCalled, None, false), Lock(0), OneDrain(Holding, Some(0), false))
    ensures Moves(cfg, OneDrain(Holding, Some(0), false), Close(0), OneDrain(Closing, Some(0), true))
    ensures Moves(cfg, OneDrain(Closing, Some(0), true), Unlock(0), OneDrain(Waiting, None, true))
    ensures Moves(cfg, OneDrain(Waiting, None, true), LanesDone(0), OneDrain(Nil({}), None, true))
  {
    assert StartedLanes(OneDrain(Waiting, None, true)) == {};
  }

  /** Without Run, Drain returns nil while an accepted message is still in its lane's
      buffer. */
  lemma {:induction false} DrainLosesUnstarted() returns (cfg: Config, states: seq<State>, steps: seq<Step>)
    ensures Execution(cfg, states, steps) && states[|states| - 1] == OneDrain(Nil({}), None, true)
    ensures var lane := OneDrain(Nil({}), None, true).lanes[0]; lane.sent == [0] && lane.done == []
  {
    cfg := Config(1, 1, false, false);
    states, steps := SubmitUnstarted(cfg);
    OneDrainSteps(cfg);
    states, steps := Continue(cfg, states, steps, OneCall(Returned(Enqueued), [0], {}), CallDrain,
        OneDrain(DrainCalled, None, false));
    states, steps := Continue(cfg, states, steps, OneDrain(DrainCalled, None, false), Lock(0),
        OneDrain(Holding, Some(0), false));
    states, steps := Continue(cfg, states, steps, OneDrain(Holding, Some(0), false), Close(0),
        OneDrain(Closing, Some(0), true));
    states, steps := Continue(cfg, states, steps, OneDrain(Closing, Some(0), true), Unlock(0),
        OneDrain(Waiting, None, true));
    states, steps := Continue(cfg, states, steps, OneDrain(Waiting, None, true), LanesDone(0),
        OneDrain(Nil({}), None, true));
  }
}
