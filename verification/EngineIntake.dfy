/** The engine's intake: routing submissions to shards, and the order in which one
    device's messages reach the commit observers. */
module EngineIntake {
  import opened EngineOps
  import opened EngineBatch
  import opened EngineShard

  /** Messages that were sent to shard `i`, in order. `route` is the device hash: a
      fixed shard per device. */
  function ToShard(sent: seq<Inbound>, route: map<int, nat>, i: nat): seq<Inbound> {
    if sent == [] then [] else
    var rest, m := ToShard(sent[..|sent| - 1], route, i), sent[|sent| - 1];
    if m.device in route && route[m.device] == i then rest + [m] else rest
  }

  function OfDevice(ms: seq<Inbound>, device: int): seq<Inbound> {
    if ms == [] then [] else
    var rest, m := OfDevice(ms[..|ms| - 1], device), ms[|ms| - 1];
    if m.device == device then rest + [m] else rest
  }

  /** `a` can be read off `b` from left to right, skipping some elements. */
  ghost predicate Subsequence<T>(a: seq<T>, b: seq<T>) {
    a == [] || (b != [] &&
      ((a[|a| - 1] == b[|b| - 1] && Subsequence(a[..|a| - 1], b[..|b| - 1])) || Subsequence(a, b[..|b| - 1])))
  }

  /** Routing by device keeps each device's messages together and in order. */
  lemma {:induction false} RoutingKeepsDevices(sent: seq<Inbound>, route: map<int, nat>, device: int)
    requires device in route
    ensures OfDevice(ToShard(sent, route, route[device]), device) == OfDevice(sent, device)
  {
    if sent != [] {
      var rest := ToShard(sent[..|sent| - 1], route, route[device]);
      RoutingKeepsDevices(sent[..|sent| - 1], route, device);
      assert (rest + [sent[|sent| - 1]])[..|rest|] == rest;
    }
  }

  lemma {:induction false} SubsequenceOfDevice(a: seq<Inbound>, b: seq<Inbound>, device: int)
    requires Subsequence(a, b)
    ensures Subsequence(OfDevice(a, device), OfDevice(b, device))
    decreases |b|
  {
    if a != [] {
      var b' := b[..|b| - 1];
      if a[|a| - 1] == b[|b| - 1] && Subsequence(a[..|a| - 1], b') {
        SubsequenceOfDevice(a[..|a| - 1], b', device);
        var x, y := OfDevice(a[..|a| - 1], device), OfDevice(b', device);
        assert (x + [a[|a| - 1]])[..|x|] == x && (y + [a[|a| - 1]])[..|y|] == y;
      } else {
        SubsequenceOfDevice(a, b', device);
        var y := OfDevice(b', device);
        assert (y + [b[|b| - 1]])[..|y|] == y;
      }
    }
  }

  /** The messages behind a list of operations. */
  ghost function Messages(ops: seq<PersistOp>, arrivals: seq<Inbound>): seq<Inbound>
    requires forall i :: 0 <= i < |ops| ==> ops[i].id < |arrivals|
  {
    seq(|ops|, i requires 0 <= i < |ops| => arrivals[ops[i].id])
  }

  lemma {:induction false} IncreasingIsSubsequence(ops: seq<PersistOp>, arrivals: seq<Inbound>, n: nat)
    requires Increasing(ops) && n <= |arrivals|
    requires forall i :: 0 <= i < |ops| ==> ops[i].id < n
    ensures Subsequence(Messages(ops, arrivals), arrivals[..n])
    decreases n
  {
    if ops != [] {
      var k := |ops| - 1;
      var a, b := Messages(ops, arrivals), arrivals[..n];
      assert ops[k].id < n && b[..n - 1] == arrivals[..n - 1];
      if ops[k].id == n - 1 {
        IncreasingIsSubsequence(ops[..k], arrivals, n - 1);
        assert a[..k] == Messages(ops[..k], arrivals);
      } else {
        IncreasingIsSubsequence(ops, arrivals, n - 1);
      }
    }
  }

  /** For every device, the operations that reach the commit observers of its shard
      are a subsequence of the order in which the device's messages were submitted. */
  lemma {:induction false} DeviceOrder(sh: Shard, sent: seq<Inbound>, route: map<int, nat>, device: int)
    requires sh.Valid()
    requires device in route && sh.arrivals == ToShard(sent, route, route[device])
    ensures Subsequence(OfDevice(Messages(sh.batch.observed, sh.arrivals), device), OfDevice(sent, device))
  {
    var observed, ops := sh.batch.observed, sh.batch.ops;
    assert forall i :: 0 <= i < |observed| ==> (observed + ops)[i] == observed[i];
    IncreasingIsSubsequence(observed, sh.arrivals, |sh.arrivals|);
    assert sh.arrivals[..|sh.arrivals|] == sh.arrivals;
    SubsequenceOfDevice(Messages(observed, sh.arrivals), sh.arrivals, device);
    RoutingKeepsDevices(sent, route, device);
  }

  /** What became of one call of Submit: `Waiting` is a QoS 1 or 2 message whose sender
      is blocked on a full channel and has to be tried again. */
  datatype Submitted = Enqueued | DroppedFull | DroppedClosed | Waiting

  /** The bounded channels of all shards. `channels[i]` is what shard `i` has not read
      yet, `read[i]` what it has, and `sent` every message a channel took. */
  class Intake {
    const route: map<int, nat>
    const capacity: nat
    var channels: seq<seq<Inbound>>
    var qos0Drops: nat
    var droppedShutdown: nat
    var closed: bool
    ghost var read: seq<seq<Inbound>>
    ghost var sent: seq<Inbound>

    ghost predicate Valid()
      reads this
    {
      && |read| == |channels|
      && (forall d :: d in route ==> route[d] < |channels|)
      && (forall i :: 0 <= i < |channels| ==> |channels[i]| <= capacity)
      && (forall i :: 0 <= i < |channels| ==> read[i] + channels[i] == ToShard(sent, route, i))
    }

    constructor (route: map<int, nat>, shards: nat, capacity: nat)
      requires forall d :: d in route ==> route[d] < shards
      ensures Valid() && this.route == route && this.capacity == capacity && sent == [] && !closed
      ensures qos0Drops == 0 && droppedShutdown == 0
    {
      this.route, this.capacity := route, capacity;
      channels, qos0Drops, droppedShutdown, closed := seq(shards, _ => []), 0, 0, false;
      read, sent := seq(shards, _ => []), [];
    }

    /** Routes one message to the shard of its device. A full channel drops QoS 0
        messages and makes the others wait, so a message that is not QoS 0 is only ever
        lost by shutdown. */
    method Submit(m: Inbound, qos: nat) returns (r: Submitted)
      requires Valid() && m.device in route
      modifies this
      ensures Valid() && closed == old(closed) && read == old(read)
      ensures sent == if r.Enqueued? then old(sent) + [m] else old(sent)
      ensures r.DroppedClosed? <==> old(closed)
      ensures r.Enqueued? <==> !old(closed) && |old(channels)[route[m.device]]| < capacity
      ensures r.DroppedFull? ==> qos == 0
      ensures r.Waiting? ==> qos > 0 && channels == old(channels)
      ensures qos0Drops == old(qos0Drops) + (if r.DroppedFull? then 1 else 0)
      ensures droppedShutdown == old(droppedShutdown) + (if r.DroppedClosed? then 1 else 0)
    {
      if closed {
        droppedShutdown := droppedShutdown + 1;
        return DroppedClosed;
      }
      var i := route[m.device];
      if |channels[i]| >= capacity {
        if qos == 0 {
          qos0Drops := qos0Drops + 1;
          return DroppedFull;
        }
        return Waiting;
      }
      Append(m, i);
      r := Enqueued;
    }

    method Append(m: Inbound, i: nat)
      requires Valid() && m.device in route && i == route[m.device] && |channels[i]| < capacity
      modifies this`channels, this`sent
      ensures Valid() && sent == old(sent) + [m]
    {
      RoutedNext(sent, m, route);
      assert read[i] + (channels[i] + [m]) == read[i] + channels[i] + [m];
      channels := channels[i := channels[i] + [m]];
      sent := sent + [m];
    }

    /** Shard `i` takes its oldest unread message. */
    method Receive(i: nat) returns (m: Inbound)
      requires Valid() && i < |channels| && channels[i] != []
      modifies this`channels, this`read
      ensures Valid() && m == old(channels)[i][0]
      ensures read == old(read)[i := old(read)[i] + [m]] && channels == old(channels)[i := old(channels)[i][1..]]
    {
      m := channels[i][0];
      assert read[i] + [m] + channels[i][1..] == read[i] + channels[i];
      channels, read := channels[i := channels[i][1..]], read[i := read[i] + [m]];
    }

    /** Drain: no submission after this reaches a shard. */
    method Close()
      requires Valid()
      modifies this`closed
      ensures Valid() && closed
    {
      closed := true;
    }
  }

  /** One more message goes to its own shard and to no other. */
  lemma {:induction false} RoutedNext(sent: seq<Inbound>, m: Inbound, route: map<int, nat>)
    ensures forall i: nat {:trigger ToShard(sent + [m], route, i)} ::
              ToShard(sent + [m], route, i) ==
              if m.device in route && route[m.device] == i
              then ToShard(sent, route, i) + [m]
              else ToShard(sent, route, i)
  {
    assert (sent + [m])[..|sent|] == sent;
  }

  /** The shard of a device, fed from its channel, shows its observers the device's
      operations in submission order. */
  lemma {:induction false} DeviceOrderFromIntake(intake: Intake, sh: Shard, device: int)
    requires intake.Valid() && sh.Valid() && device in intake.route
    requires sh.arrivals == intake.read[intake.route[device]] + intake.channels[intake.route[device]]
    ensures Subsequence(OfDevice(Messages(sh.batch.observed, sh.arrivals), device), OfDevice(intake.sent, device))
  {
    DeviceOrder(sh, intake.sent, intake.route, device);
  }
}
