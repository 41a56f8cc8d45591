/** The broker's persistent queue of unacknowledged messages: keyed records with a
    queueing sequence number, and the order in which they are replayed. Characters of
    identifiers and keys stand for bytes. */
module SessionStore {

  type Id = string

  type Key = string

  const SEPARATOR: char := '\0'
  const WINDOW: int := 65536

  /** A stored message; `expiry` 0 means never. */
  datatype Record = Record(client: Id, packetId: nat, created: int, expiry: int, seqNo: nat, body: string)

  ghost predicate NulFree(s: string) {
    forall i :: 0 <= i < |s| ==> s[i] != SEPARATOR
  }

  function CompositeKey(client: Id, suffix: string): Key {
    client + [SEPARATOR] + suffix
  }

  /** Two bytes, most significant first. */
  function PacketBytes(packetId: nat): string
    requires packetId < 65536
  {
    [(packetId / 256) as char, (packetId % 256) as char]
  }

  function InflightKey(client: Id, packetId: nat): Key
    requires packetId < 65536
  {
    CompositeKey(client, PacketBytes(packetId))
  }

  /** With NUL-free client identifiers, a key has another client's prefix only if the two
      clients are the same. */
  lemma {:induction false} PrefixIsOwner(client: Id, other: Id, suffix: string)
    requires NulFree(client) && NulFree(other)
    ensures CompositeKey(client, "") <= CompositeKey(other, suffix) <==> client == other
  {
    var p, k := CompositeKey(client, ""), CompositeKey(other, suffix);
    assert p == client + [SEPARATOR];
    assert k[|other|] == SEPARATOR && p[|client|] == SEPARATOR;
    assert forall i :: 0 <= i < |other| ==> k[i] == other[i];
    assert forall i :: 0 <= i < |client| ==> p[i] == client[i];
    if p <= k {
      assert k[|client|] == p[|client|];
      assert |client| == |other|;
      assert client == p[..|client|] == k[..|client|] == other;
    }
    if client == other {
      assert k[..|p|] == p;
    }
  }

  /** ... and one that contains a NUL can own another client's key. */
  lemma {:induction false} NulBreaksOwnership() returns (client: Id, other: Id)
    ensures client != other && CompositeKey(client, "") <= CompositeKey(other, "")
  {
    client, other := "a", ['a', SEPARATOR, 'b'];
    assert CompositeKey(other, "")[..2] == CompositeKey(client, "");
    assert |client| != |other|;
  }

  lemma {:induction false} KeysAreDistinct(c: Id, p: nat, d: Id, q: nat)
    requires p < 65536 && q < 65536 && InflightKey(c, p) == InflightKey(d, q)
    ensures c == d && p == q
  {
    var a, b := InflightKey(c, p), InflightKey(d, q);
    assert |a| == |c| + 3 && |b| == |d| + 3;
    assert a[..|c|] == c && b[..|d|] == d;
    assert a[|c| + 1] == (p / 256) as char && b[|d| + 1] == (q / 256) as char;
    assert a[|c| + 2] == (p % 256) as char && b[|d| + 2] == (q % 256) as char;
    assert (p / 256) as char as int == p / 256 && (q / 256) as char as int == q / 256;
    assert (p % 256) as char as int == p % 256 && (q % 256) as char as int == q % 256;
  }

  ghost function Without(order: seq<Key>, gone: set<Key>): seq<Key> {
    if order == [] then []
    else if order[|order| - 1] in gone then Without(order[..|order| - 1], gone)
    else Without(order[..|order| - 1], gone) + [order[|order| - 1]]
  }

  ghost function Number(inflight: map<Key, Record>, k: Key): nat {
    if k in inflight then inflight[k].seqNo else 0
  }

  ghost predicate Rising(order: seq<Key>, inflight: map<Key, Record>) {
    forall i, j :: 0 <= i < j < |order| ==> Number(inflight, order[i]) < Number(inflight, order[j])
  }

  /** The slots in use, in the order they were first filled: no slot twice, and sequence
      numbers rise along it. */
  ghost predicate Queue(order: seq<Key>, inflight: map<Key, Record>) {
    (forall k :: k in order <==> k in inflight) && Rising(order, inflight)
  }

  ghost predicate FiledUnder(r: Record, k: Key) {
    r.packetId < 65536 && k == InflightKey(r.client, r.packetId)
  }

  ghost predicate Filed(inflight: map<Key, Record>) {
    forall k {:trigger FiledUnder(inflight[k], k)} :: k in inflight ==> FiledUnder(inflight[k], k)
  }

  lemma {:induction false} FiledMore(inflight: map<Key, Record>, k: Key, r: Record)
    requires Filed(inflight) && FiledUnder(r, k)
    ensures Filed(inflight[k := r])
  {
    var more := inflight[k := r];
    forall x | x in more ensures FiledUnder(more[x], x) {
      assert x != k ==> FiledUnder(inflight[x], x);
    }
  }

  lemma {:induction false} FiledLess(inflight: map<Key, Record>, gone: set<Key>)
    requires Filed(inflight)
    ensures Filed(inflight - gone)
  {
    forall x | x in inflight - gone ensures FiledUnder((inflight - gone)[x], x) {
      assert FiledUnder(inflight[x], x);
    }
  }

  lemma {:induction false} WithoutMembers(order: seq<Key>, gone: set<Key>)
    ensures forall k :: k in Without(order, gone) <==> k in order && k !in gone
    decreases |order|
  {
    if order != [] {
      WithoutMembers(order[..|order| - 1], gone);
      assert order == order[..|order| - 1] + [order[|order| - 1]];
    }
  }

  lemma {:induction false} WithoutRises(order: seq<Key>, inflight: map<Key, Record>, gone: set<Key>)
    requires Rising(order, inflight)
    ensures Rising(Without(order, gone), inflight)
    decreases |order|
  {
    if order != [] {
      var n := |order| - 1;
      assert forall i :: 0 <= i < n ==> order[..n][i] == order[i];
      WithoutRises(order[..n], inflight, gone);
      WithoutMembers(order[..n], gone);
      var front := Without(order[..n], gone);
      forall i | 0 <= i < |front| ensures Number(inflight, front[i]) < Number(inflight, order[n]) {
        assert front[i] in front;
        var j :| 0 <= j < n && order[j] == front[i];
      }
    }
  }

  lemma {:induction false} QueueWithout(order: seq<Key>, inflight: map<Key, Record>, gone: set<Key>)
    requires Queue(order, inflight)
    ensures Queue(Without(order, gone), inflight - gone)
  {
    WithoutMembers(order, gone);
    WithoutRises(order, inflight, gone);
    var rest := Without(order, gone);
    forall i, j | 0 <= i < j < |rest| ensures Number(inflight - gone, rest[i]) < Number(inflight - gone, rest[j]) {
      assert rest[i] in rest && rest[j] in rest;
    }
  }

  lemma {:induction false} QueueAppend(order: seq<Key>, inflight: map<Key, Record>, key: Key, r: Record)
    requires Queue(order, inflight) && key !in inflight && forall k :: k in inflight ==> inflight[k].seqNo < r.seqNo
    ensures Queue(order + [key], inflight[key := r])
  {
    var all, more := order + [key], inflight[key := r];
    assert forall i :: 0 <= i < |order| ==> order[i] in order && all[i] == order[i];
  }

  lemma {:induction false} QueueRefile(order: seq<Key>, inflight: map<Key, Record>, key: Key, r: Record)
    requires Queue(order, inflight) && key in inflight && r.seqNo == inflight[key].seqNo
    ensures Queue(order, inflight[key := r])
  {
    assert forall k :: Number(inflight[key := r], k) == Number(inflight, k);
  }

  /** With NUL-free identifiers, the keys under a client's prefix are exactly the keys of
      its own records: dropping a client touches nobody else. */
  lemma {:induction false} PrefixIsExact(inflight: map<Key, Record>, client: Id, k: Key)
    requires Filed(inflight) && k in inflight && NulFree(client) && NulFree(inflight[k].client)
    ensures CompositeKey(client, "") <= k <==> inflight[k].client == client
  {
    assert FiledUnder(inflight[k], k);
    PrefixIsOwner(client, inflight[k].client, PacketBytes(inflight[k].packetId));
  }

  predicate Expired(r: Record, now: int) {
    0 < r.expiry <= now
  }

  ghost function KeysWhere(inflight: map<Key, Record>, client: Id, now: int): set<Key> {
    set k | k in inflight && CompositeKey(client, "") <= k && Expired(inflight[k], now)
  }

  class Store {
    var clients: set<Id>
    var subscriptions: map<Key, string>
    var inflight: map<Key, Record>
    var sequence: nat
    ghost var order: seq<Key>

    ghost predicate Valid()
      reads this
    {
      && Queue(order, inflight) && Filed(inflight)
      && forall k :: k in inflight ==> 1 <= inflight[k].seqNo <= sequence
    }

    constructor ()
      ensures Valid() && order == [] && inflight == map[] && subscriptions == map[] && clients == {}
    {
      clients, subscriptions, inflight, sequence, order := {}, map[], map[], 0, [];
    }

    /** Queues a message, or re-files a resent one under its original place. */
    method OnQosPublish(client: Id, packetId: nat, created: int, expiry: int, body: string)
      requires Valid() && packetId < 65536
      modifies this
      ensures Valid() && subscriptions == old(subscriptions) && clients == old(clients)
      ensures var key := InflightKey(client, packetId);
              && inflight.Keys == old(inflight.Keys) + {key}
              && (forall k :: k in inflight && k != key ==> inflight[k] == old(inflight)[k])
              && inflight[key].(seqNo := 0) == Record(client, packetId, created, expiry, 0, body)
              && order == if key in old(inflight) then old(order) else old(order) + [key]
    {
      var key := InflightKey(client, packetId);
      var number := if key in inflight then inflight[key].seqNo else 0;
      if number == 0 {
        sequence := sequence + 1;
        number := sequence;
      }
      var record := Record(client, packetId, created, expiry, number, body);
      if key in inflight {
        QueueRefile(order, inflight, key, record);
      } else {
        QueueAppend(order, inflight, key, record);
        order := order + [key];
      }
      FiledMore(inflight, key, record);
      inflight := inflight[key := record];
    }

    /** A completed or dropped message leaves the queue. */
    method OnQosComplete(client: Id, packetId: nat)
      requires Valid() && packetId < 65536
      modifies this
      ensures Valid() && subscriptions == old(subscriptions) && clients == old(clients)
      ensures inflight == old(inflight) - {InflightKey(client, packetId)}
      ensures order == Without(old(order), {InflightKey(client, packetId)})
    {
      QueueWithout(order, inflight, {InflightKey(client, packetId)});
      FiledLess(inflight, {InflightKey(client, packetId)});
      order := Without(order, {InflightKey(client, packetId)});
      inflight := inflight - {InflightKey(client, packetId)};
    }

    /** Before a session with queued messages in memory is resumed, its expired ones are
        pruned. */
    method OnSessionEstablish(client: Id, now: int, queued: bool)
      requires Valid()
      modifies this
      ensures Valid() && subscriptions == old(subscriptions) && clients == old(clients)
      ensures !queued ==> inflight == old(inflight) && order == old(order)
      ensures queued ==> inflight == old(inflight) - KeysWhere(old(inflight), client, now)
      ensures queued ==> order == Without(old(order), KeysWhere(old(inflight), client, now))
    {
      if !queued {
        return;
      }
      var prefix := CompositeKey(client, "");
      var gone := set k | k in inflight && prefix <= k && Expired(inflight[k], now);
      QueueWithout(order, inflight, gone);
      FiledLess(inflight, gone);
      order := Without(order, gone);
      inflight := inflight - gone;
    }

    /** Forgets a client: its record, and every key under its prefix. */
    method DropClient(client: Id)
      requires Valid()
      modifies this
      ensures Valid() && clients == old(clients) - {client}
      ensures forall k :: k in inflight <==> k in old(inflight) && !(CompositeKey(client, "") <= k)
      ensures forall k :: k in inflight ==> inflight[k] == old(inflight)[k]
      ensures forall k :: k in subscriptions <==> k in old(subscriptions) && !(CompositeKey(client, "") <= k)
      ensures forall k :: k in subscriptions ==> subscriptions[k] == old(subscriptions)[k]
      ensures order == Without(old(order), old(inflight).Keys - inflight.Keys)
    {
      var prefix := CompositeKey(client, "");
      clients := clients - {client};
      var filters := set k | k in subscriptions && prefix <= k;
      subscriptions := subscriptions - filters;
      Discard(set k | k in inflight && prefix <= k);
    }

    /** Takes messages out of the queue. */
    method Discard(gone: set<Key>)
      requires Valid() && gone <= inflight.Keys
      modifies this`order, this`inflight
      ensures Valid() && inflight == old(inflight) - gone
      ensures order == Without(old(order), old(inflight).Keys - inflight.Keys)
    {
      QueueWithout(order, inflight, gone);
      FiledLess(inflight, gone);
      order := Without(order, gone);
      inflight := inflight - gone;
      assert gone == old(inflight).Keys - inflight.Keys;
    }

    /** Restart: what is left of the queue after dropping what expired meanwhile. */
    method PruneExpired(now: int)
      requires Valid()
      modifies this
      ensures Valid() && subscriptions == old(subscriptions) && clients == old(clients)
      ensures forall k :: k in inflight <==> k in old(inflight) && !(0 < old(inflight)[k].expiry <= now)
      ensures forall k :: k in inflight ==> inflight[k] == old(inflight)[k]
      ensures order == Without(old(order), old(inflight).Keys - inflight.Keys)
    {
      Discard(set k | k in inflight && Expired(inflight[k], now));
    }
  }
}
