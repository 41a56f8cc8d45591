/** The whole life of the store: any sequence of queue, resend, complete, drop, expire
    and restart steps does to it what the same steps do to a plain list. */
module SessionQueue {
  import opened SessionStore
  import opened SessionReplay

  datatype Step =
    | Publish(client: Id, packetId: nat, created: int, expiry: int, body: string)
    | Complete(client: Id, packetId: nat)
    | Resume(client: Id, now: int, queued: bool)
    | Drop(client: Id)
    | Restart(now: int)

  /** Packet identifiers have 16 bits. */
  ghost predicate Proper(step: Step) {
    match step
    case Publish(_, packetId, _, _, _) => packetId < 65536
    case Complete(_, packetId) => packetId < 65536
    case _ => true
  }

  /** A message in the list, whatever number the store gave it. */
  function Plain(r: Record): Record {
    r.(seqNo := 0)
  }

  ghost predicate SameSlot(r: Record, client: Id, packetId: nat) {
    r.client == client && r.packetId == packetId
  }

  ghost predicate HasSlot(list: seq<Record>, client: Id, packetId: nat) {
    exists i :: 0 <= i < |list| && SameSlot(list[i], client, packetId)
  }

  /** The message of a slot replaced where it stands. */
  ghost function Replace(list: seq<Record>, r: Record): (out: seq<Record>)
    ensures |out| == |list|
  {
    seq(|list|, i requires 0 <= i < |list| => if SameSlot(list[i], r.client, r.packetId) then r else list[i])
  }

  /** Whether a step that removes messages removes this one. */
  ghost predicate Removes(step: Step, r: Record) {
    match step
    case Publish(_, _, _, _, _) => false
    case Complete(client, packetId) => SameSlot(r, client, packetId)
    case Resume(client, now, queued) => queued && Owns(client, r) && Expired(r, now)
    case Drop(client) => Owns(client, r)
    case Restart(now) => Expired(r, now)
  }

  /** The client's key prefix covers the record. */
  ghost predicate Owns(client: Id, r: Record) {
    r.packetId < 65536 && CompositeKey(client, "") <= InflightKey(r.client, r.packetId)
  }

  ghost function Keep(list: seq<Record>, step: Step): seq<Record> {
    if list == [] then []
    else if Removes(step, list[|list| - 1]) then Keep(list[..|list| - 1], step)
    else Keep(list[..|list| - 1], step) + [list[|list| - 1]]
  }

  /** What a step does to the list: a new slot goes to the end, a resent one stays. */
  ghost function After(list: seq<Record>, step: Step): seq<Record> {
    match step
    case Publish(client, packetId, created, expiry, body) =>
      var r := Record(client, packetId, created, expiry, 0, body);
      if HasSlot(list, client, packetId) then Replace(list, r) else list + [r]
    case _ => Keep(list, step)
  }

  ghost function AfterAll(steps: seq<Step>): seq<Record> {
    if steps == [] then [] else After(AfterAll(steps[..|steps| - 1]), steps[|steps| - 1])
  }

  lemma {:induction false} KeepMembers(list: seq<Record>, step: Step, r: Record)
    ensures r in Keep(list, step) <==> r in list && !Removes(step, r)
    decreases |list|
  {
    if list != [] {
      var n := |list| - 1;
      KeepMembers(list[..n], step, r);
      assert list == list[..n] + [list[n]];
    }
  }

  /** A message without expiry outlives every restart and resume; one with an expiry
      outlives a restart exactly when its time is not reached. */
  lemma {:induction false} ExpiryDecides(list: seq<Record>, r: Record, client: Id, now: int, queued: bool)
    requires r in list
    ensures r.expiry == 0 ==> r in After(list, Restart(now)) && r in After(list, Resume(client, now, queued))
    ensures r.expiry > 0 ==> (r in After(list, Restart(now)) <==> now < r.expiry)
    ensures !queued ==> After(list, Resume(client, now, queued)) == list
  {
    KeepMembers(list, Restart(now), r);
    KeepMembers(list, Resume(client, now, queued), r);
    if !queued {
      KeepAll(list, Resume(client, now, queued));
    }
  }

  lemma {:induction false} KeepAll(list: seq<Record>, step: Step)
    requires forall r :: !Removes(step, r)
    ensures Keep(list, step) == list
    decreases |list|
  {
    if list != [] {
      KeepAll(list[..|list| - 1], step);
      assert list == list[..|list| - 1] + [list[|list| - 1]];
    }
  }

  /** The plain records under a list of keys. */
  ghost function View(order: seq<Key>, inflight: map<Key, Record>): (list: seq<Record>)
    requires forall k :: k in order ==> k in inflight
    ensures |list| == |order| && forall i :: 0 <= i < |order| ==>
        order[i] in inflight && list[i] == Plain(inflight[order[i]])
  {
    assert forall i :: 0 <= i < |order| ==> order[i] in order;
    seq(|order|, i requires 0 <= i < |order| => Plain(inflight[order[i]]))
  }

  lemma {:induction false} SlotIsKey(inflight: map<Key, Record>, k: Key, client: Id, packetId: nat)
    requires Filed(inflight) && k in inflight && packetId < 65536
    ensures SameSlot(inflight[k], client, packetId) <==> k == InflightKey(client, packetId)
  {
    assert FiledUnder(inflight[k], k);
    if k == InflightKey(client, packetId) {
      KeysAreDistinct(inflight[k].client, inflight[k].packetId, client, packetId);
    }
  }

  lemma {:induction false} SlotInView(order: seq<Key>, inflight: map<Key, Record>, client: Id, packetId: nat)
    requires Queue(order, inflight) && Filed(inflight) && packetId < 65536
    ensures HasSlot(View(order, inflight), client, packetId) <==> InflightKey(client, packetId) in inflight
  {
    var key, list := InflightKey(client, packetId), View(order, inflight);
    if key in inflight {
      assert key in order;
      var i :| 0 <= i < |order| && order[i] == key;
      SlotIsKey(inflight, key, client, packetId);
      assert SameSlot(list[i], client, packetId);
    }
    if HasSlot(list, client, packetId) {
      var i :| 0 <= i < |list| && SameSlot(list[i], client, packetId);
      SlotIsKey(inflight, order[i], client, packetId);
    }
  }

  /** A resent message: the list changes in one place. */
  lemma {:induction false} ViewReplace(order: seq<Key>, inflight: map<Key, Record>, now: map<Key, Record>, r: Record)
    requires Queue(order, inflight) && Filed(inflight) && r.packetId < 65536 && Queue(order, now)
    requires var key := InflightKey(r.client, r.packetId);
             && key in now && Plain(now[key]) == r && now.Keys == inflight.Keys
             && forall k :: k in now && k != key ==> now[k] == inflight[k]
    ensures View(order, now) == Replace(View(order, inflight), r)
  {
    var list, next := View(order, inflight), View(order, now);
    forall i | 0 <= i < |order| ensures next[i] == Replace(list, r)[i] {
      SlotIsKey(inflight, order[i], r.client, r.packetId);
    }
  }

  lemma {:induction false} ViewAppend(order: seq<Key>, inflight: map<Key, Record>, now: map<Key, Record>, key: Key)
    requires Queue(order, inflight) && key !in inflight && Queue(order + [key], now)
    requires key in now && now.Keys == inflight.Keys + {key} && forall k :: k in now && k != key ==>
        now[k] == inflight[k]
    ensures View(order + [key], now) == View(order, inflight) + [Plain(now[key])]
  {
    var list, next := View(order, inflight), View(order + [key], now);
    forall i | 0 <= i < |order| ensures next[i] == list[i] {
    }
  }

  lemma {:induction false} KeepAppend(list: seq<Record>, r: Record, step: Step)
    ensures Keep(list + [r], step) == if Removes(step, r) then Keep(list, step) else Keep(list, step) + [r]
  {
    assert (list + [r])[..|list|] == list;
  }

  lemma {:induction false} WithoutAppend(order: seq<Key>, k: Key, gone: set<Key>)
    ensures Without(order + [k], gone) == if k in gone then Without(order, gone) else Without(order, gone) + [k]
  {
    assert (order + [k])[..|order|] == order;
  }

  lemma {:induction false} ViewSnoc(order: seq<Key>, k: Key, inflight: map<Key, Record>)
    requires k in inflight && forall x :: x in order ==> x in inflight
    ensures forall x :: x in order + [k] ==> x in inflight
    ensures View(order + [k], inflight) == View(order, inflight) + [Plain(inflight[k])]
  {
  }

  /** Removing keys removes the matching messages. */
  lemma {:induction false} KeepMatches(order: seq<Key>, inflight: map<Key, Record>, gone: set<Key>, step: Step)
    requires forall k :: k in order ==> k in inflight
    requires forall k :: k in inflight ==> (k in gone <==> Removes(step, Plain(inflight[k])))
    ensures forall k :: k in Without(order, gone) ==> k in inflight - gone
    ensures View(Without(order, gone), inflight - gone) == Keep(View(order, inflight), step)
    decreases |order|
  {
    WithoutMembers(order, gone);
    if order != [] {
      var front, k := order[..|order| - 1], order[|order| - 1];
      assert order == front + [k] && k in order;
      assert forall x :: x in front ==> x in order;
      KeepMatches(front, inflight, gone, step);
      KeepMatch(front, k, inflight, gone, step);
    }
  }

  lemma {:induction false} KeepMatch(front: seq<Key>, k: Key, inflight: map<Key, Record>, gone: set<Key>, step: Step)
    requires k in inflight && (forall x :: x in front ==> x in inflight) &&
        (k in gone <==> Removes(step, Plain(inflight[k])))
    requires forall x :: x in Without(front, gone) ==> x in inflight - gone
    requires View(Without(front, gone), inflight - gone) == Keep(View(front, inflight), step)
    ensures forall x :: x in front + [k] ==> x in inflight
    ensures forall x :: x in Without(front + [k], gone) ==> x in inflight - gone
    ensures View(Without(front + [k], gone), inflight - gone) == Keep(View(front + [k], inflight), step)
  {
    WithoutAppend(front, k, gone);
    ViewSnoc(front, k, inflight);
    KeepAppend(View(front, inflight), Plain(inflight[k]), step);
    if k !in gone {
      ViewSnoc(Without(front, gone), k, inflight - gone);
    }
  }

  lemma {:induction false} RemovedKeys(inflight: map<Key, Record>, step: Step, gone: set<Key>)
    requires Filed(inflight) && Proper(step) && !step.Publish?
    requires forall k :: k in gone <==> k in inflight && RemovedKey(inflight, step, k)
    ensures forall k :: k in inflight ==> (k in gone <==> Removes(step, Plain(inflight[k])))
  {
    forall k | k in inflight ensures k in gone <==> Removes(step, Plain(inflight[k])) {
      assert FiledUnder(inflight[k], k);
      if step.Complete? {
        SlotIsKey(inflight, k, step.client, step.packetId);
      }
    }
  }

  /** Which keys the store deletes on a step. */
  ghost predicate RemovedKey(inflight: map<Key, Record>, step: Step, k: Key)
    requires Proper(step) && k in inflight
  {
    match step
    case Publish(_, _, _, _, _) => false
    case Complete(client, packetId) => k == InflightKey(client, packetId)
    case Resume(client, now, queued) => queued && CompositeKey(client, "") <= k && Expired(inflight[k], now)
    case Drop(client) => CompositeKey(client, "") <= k
    case Restart(now) => Expired(inflight[k], now)
  }

  ghost predicate Holds(store: Store, list: seq<Record>)
    reads store
  {
    store.Valid() && View(store.order, store.inflight) == list
  }

  method TakePublish(
    store: Store, client: Id, packetId: nat, created: int, expiry: int, body: string, ghost list: seq<Record>)
    requires Holds(store, list) && packetId < 65536
    modifies store
    ensures Holds(store, After(list, Publish(client, packetId, created, expiry, body)))
  {
    ghost var order, inflight := store.order, store.inflight;
    SlotInView(order, inflight, client, packetId);
    store.OnQosPublish(client, packetId, created, expiry, body);
    ghost var key, r := InflightKey(client, packetId), Record(client, packetId, created, expiry, 0, body);
    if key in inflight {
      ViewReplace(order, inflight, store.inflight, r);
    } else {
      ViewAppend(order, inflight, store.inflight, key);
    }
  }

  method TakeComplete(store: Store, client: Id, packetId: nat, ghost list: seq<Record>)
    requires Holds(store, list) && packetId < 65536
    modifies store
    ensures Holds(store, After(list, Complete(client, packetId)))
  {
    ghost var order, inflight, key := store.order, store.inflight, InflightKey(client, packetId);
    store.OnQosComplete(client, packetId);
    WithoutSame(order, {key}, {key} * inflight.Keys);
    assert inflight - {key} == inflight - {key} * inflight.Keys;
    Shrinks(order, inflight, Complete(client, packetId), {key} * inflight.Keys, store.order, store.inflight);
  }

  method TakeResume(store: Store, client: Id, now: int, queued: bool, ghost list: seq<Record>)
    requires Holds(store, list)
    modifies store
    ensures Holds(store, After(list, Resume(client, now, queued)))
  {
    ghost var order, inflight := store.order, store.inflight;
    store.OnSessionEstablish(client, now, queued);
    ghost var gone := if queued then KeysWhere(inflight, client, now) else {};
    WithoutNothing(order);
    assert inflight - {} == inflight;
    Shrinks(order, inflight, Resume(client, now, queued), gone, store.order, store.inflight);
  }

  method TakeDrop(store: Store, client: Id, ghost list: seq<Record>)
    requires Holds(store, list)
    modifies store
    ensures Holds(store, After(list, Drop(client)))
  {
    ghost var order, inflight := store.order, store.inflight;
    store.DropClient(client);
    assert store.inflight == inflight - (inflight.Keys - store.inflight.Keys);
    Shrinks(order, inflight, Drop(client), inflight.Keys - store.inflight.Keys, store.order, store.inflight);
  }

  method TakeRestart(store: Store, now: int, ghost list: seq<Record>)
    requires Holds(store, list)
    modifies store
    ensures Holds(store, After(list, Restart(now)))
  {
    ghost var order, inflight := store.order, store.inflight;
    store.PruneExpired(now);
    assert store.inflight == inflight - (inflight.Keys - store.inflight.Keys);
    Shrinks(order, inflight, Restart(now), inflight.Keys - store.inflight.Keys, store.order, store.inflight);
  }

  /** A step on the store is the step on the list. */
  method Take(store: Store, step: Step, ghost list: seq<Record>)
    requires Holds(store, list) && Proper(step)
    modifies store
    ensures Holds(store, After(list, step))
  {
    match step {
      case Publish(client, packetId, created, expiry, body) => TakePublish(store, client, packetId, created, expiry,
          body, list);
      case Complete(client, packetId) => TakeComplete(store, client, packetId, list);
      case Resume(client, now, queued) => TakeResume(store, client, now, queued, list);
      case Drop(client) => TakeDrop(store, client, list);
      case Restart(now) => TakeRestart(store, now, list);
    }
  }

  lemma {:induction false} WithoutNothing(order: seq<Key>)
    ensures Without(order, {}) == order
    decreases |order|
  {
    if order != [] {
      WithoutNothing(order[..|order| - 1]);
      assert order == order[..|order| - 1] + [order[|order| - 1]];
    }
  }

  /** Only the keys in use matter to a removal. */
  lemma {:induction false} WithoutSame(order: seq<Key>, a: set<Key>, b: set<Key>)
    requires forall k :: k in order ==> (k in a <==> k in b)
    ensures Without(order, a) == Without(order, b)
    decreases |order|
  {
    if order != [] {
      var n := |order| - 1;
      assert order[n] in order && forall k :: k in order[..n] ==> k in order;
      WithoutSame(order[..n], a, b);
    }
  }

  lemma {:induction false} Shrinks(
    order: seq<Key>, inflight: map<Key, Record>, step: Step, gone: set<Key>, order': seq<Key>, inflight': map<Key,
        Record>)
    requires Queue(order, inflight) && Filed(inflight) && Proper(step) && !step.Publish?
    requires forall k :: k in gone <==> k in inflight && RemovedKey(inflight, step, k)
    requires order' == Without(order, gone) && inflight' == inflight - gone
    ensures forall k :: k in order' ==> k in inflight'
    ensures View(order', inflight') == Keep(View(order, inflight), step)
  {
    RemovedKeys(inflight, step, gone);
    KeepMatches(order, inflight, gone, step);
  }

  /** After any sequence of steps the store holds the list those steps make, and a
      restart replays, for each client, its part of that list, clamped. */
  method Live(steps: seq<Step>, now: int) returns (store: Store, out: seq<Record>)
    requires forall i {:trigger steps[i]} :: 0 <= i < |steps| ==> Proper(steps[i])
    ensures fresh(store) && Holds(store, After(AfterAll(steps), Restart(now)))
    ensures Replayed(out, After(AfterAll(steps), Restart(now)))
  {
    store := new Store();
    for i := 0 to |steps|
      invariant fresh(store) && Holds(store, AfterAll(steps[..i]))
    {
      assert steps[..i + 1][..i] == steps[..i];
      Take(store, steps[i], AfterAll(steps[..i]));
    }
    assert steps[..|steps|] == steps;
    out := RestartAndReplay(store, now, AfterAll(steps));
  }

  /** Each client's part of `out` is its part of the list with creation times clamped. */
  ghost predicate Replayed(out: seq<Record>, list: seq<Record>) {
    forall c {:trigger OfClient(out, c)} :: Unnumbered(OfClient(out, c)) == Unnumbered(Clamp(OfClient(list, c)))
  }

  method RestartAndReplay(store: Store, now: int, ghost list: seq<Record>) returns (out: seq<Record>)
    requires Holds(store, list)
    modifies store
    ensures Holds(store, After(list, Restart(now))) && Replayed(out, After(list, Restart(now)))
  {
    TakeRestart(store, now, list);
    ghost var order, inflight := store.order, store.inflight;
    var recs := ReadAll(store);
    out := NormalizeInflightOrder(recs);
    forall c ensures Unnumbered(OfClient(out, c)) == Unnumbered(Clamp(OfClient(View(order, inflight), c))) {
      SortIsQueueOrder(recs, order, inflight, c);
      Renumber(InOrder(order, inflight), c);
      assert View(order, inflight) == Unnumbered(InOrder(order, inflight));
    }
  }

  ghost function Unnumbered(recs: seq<Record>): (out: seq<Record>)
    ensures |out| == |recs|
  {
    seq(|recs|, i requires 0 <= i < |recs| => Plain(recs[i]))
  }

  /** Sequence numbers play no part in selecting a client's records or in clamping. */
  lemma {:induction false} Renumber(recs: seq<Record>, c: Id)
    ensures Unnumbered(Clamp(OfClient(recs, c))) == Unnumbered(Clamp(OfClient(Unnumbered(recs), c)))
  {
    OfClientPlain(recs, c);
    ClampPlain(OfClient(recs, c));
    ClampPlain(OfClient(Unnumbered(recs), c));
    assert Unnumbered(Unnumbered(OfClient(recs, c))) == Unnumbered(OfClient(recs, c));
  }

  lemma {:induction false} OfClientPlain(recs: seq<Record>, c: Id)
    ensures OfClient(Unnumbered(recs), c) == Unnumbered(OfClient(recs, c))
    decreases |recs|
  {
    if recs != [] {
      var n := |recs| - 1;
      assert Unnumbered(recs)[..n] == Unnumbered(recs[..n]);
      OfClientPlain(recs[..n], c);
    }
  }

  lemma {:induction false} ClampPlain(recs: seq<Record>)
    ensures Unnumbered(Clamp(recs)) == Clamp(Unnumbered(recs))
    decreases |recs|
  {
    if recs != [] {
      var n := |recs| - 1;
      assert Unnumbered(recs)[..n] == Unnumbered(recs[..n]);
      ClampPlain(recs[..n]);
      assert n > 0 ==> Unnumbered(Clamp(recs[..n]))[n - 1].created == Clamp(recs[..n])[n - 1].created;
    }
  }
}
