/** The `{v, t}` payload codec: the appending, back-patching encoder, the format
    sniffer, and the decoder at a declared type. */
module BsonCodec {
  import opened Wrappers
  import opened BsonBytes

  const MAX_STRING := 65536
  const MAX_ARRAY := 1024
  const NANOS_PER_MILLI := 1_000_000

  /** 0001-01-01T00:00:00Z and 9999-12-31T23:59:59.999Z, in epoch milliseconds. */
  const MIN_MILLIS: int := -62_135_596_800_000
  const MAX_MILLIS: int := 253_402_300_799_999

  type Int32 = x: int | -0x8000_0000 <= x < 0x8000_0000
  type Int64 = x: int | -0x8000_0000_0000_0000 <= x < 0x8000_0000_0000_0000
  type Word64 = x: int | 0 <= x < 0x1_0000_0000_0000_0000

  datatype Kind = KDouble | KInteger | KLong | KBoolean | KString | KBlob | KTime

  /** A double is its IEEE 754 bit pattern, a time its nanoseconds since the epoch. */
  datatype Scalar =
    | Double(bits: Word64) | Integer(i: Int32) | Long(l: Int64) | Boolean(b: bool)
    | Text(s: Bytes) | Blob(data: Bytes) | Time(nanos: int)

  /** The closed set of payload values; anything else is `Foreign`. */
  datatype Payload = One(x: Scalar) | Many(kind: Kind, xs: seq<Scalar>) | Obj(m: map<Bytes, Payload>) | Foreign

  function KindOf(x: Scalar): Kind {
    match x
    case Double(_) => KDouble
    case Integer(_) => KInteger
    case Long(_) => KLong
    case Boolean(_) => KBoolean
    case Text(_) => KString
    case Blob(_) => KBlob
    case Time(_) => KTime
  }

  /** Arrays are homogeneous, as their element type says. */
  ghost predicate Typed(v: Payload) {
    match v
    case Many(kind, xs) => forall i {:trigger xs[i]} :: 0 <= i < |xs| ==> KindOf(xs[i]) == kind
    case Obj(m) => forall k :: k in m ==> Typed(m[k])
    case _ => true
  }

  /** Neither infinite nor a NaN: the exponent is not all ones. */
  predicate Finite(bits: Word64) {
    bits / 0x10_0000_0000_0000 % 2048 != 2047
  }

  type FiniteBits = x: Word64 | Finite(x)

  predicate InWindow(nanos: int) {
    MIN_MILLIS * NANOS_PER_MILLI <= nanos <= MAX_MILLIS * NANOS_PER_MILLI
  }

  function Millis(nanos: int): int {
    nanos / NANOS_PER_MILLI
  }

  /** What a scalar must satisfy to be sent. */
  predicate ScalarOk(x: Scalar) {
    match x
    case Double(bits) => Finite(bits)
    case Text(s) => |s| <= MAX_STRING && Utf8(s)
    case Blob(data) => |data| <= MAX_INT32
    case Time(nanos) => InWindow(nanos)
    case _ => true
  }

  function TagOf(x: Scalar): Byte {
    match x
    case Double(_) => DOUBLE
    case Integer(_) => INT32
    case Long(_) => INT64
    case Boolean(_) => BOOLEAN
    case Text(_) => STRING
    case Blob(_) => BINARY
    case Time(_) => DATETIME
  }

  lemma {:induction false} MillisFit(nanos: int)
    requires InWindow(nanos)
    ensures MIN_MILLIS <= Millis(nanos) <= MAX_MILLIS
    ensures -(WORD64 as int) <= 2 * Millis(nanos) < WORD64
  {
  }

  function BodyOf(x: Scalar): Bytes
    requires ScalarOk(x)
  {
    match x
    case Double(bits) => Le(bits, 8)
    case Integer(i) => Le(Unsigned(i, WORD32), 4)
    case Long(l) => Le(Unsigned(l, WORD64), 8)
    case Boolean(b) => [if b then 1 else 0]
    case Text(s) => Le(|s| + 1, 4) + s + [0]
    case Blob(data) => Le(|data|, 4) + [0] + data
    case Time(nanos) => MillisFit(nanos); Le(Unsigned(Millis(nanos), WORD64), 8)
  }

  function ScalarElem(key: Bytes, x: Scalar): Elem
    requires ScalarOk(x)
  {
    Elem(TagOf(x), key, BodyOf(x))
  }

  ghost predicate ScalarsOk(xs: seq<Scalar>) {
    forall i {:trigger xs[i]} :: 0 <= i < |xs| ==> ScalarOk(xs[i])
  }

  /** The elements of an array, keyed "0", "1", and so on. */
  ghost function ArrayElems(xs: seq<Scalar>): (es: seq<Elem>)
    requires ScalarsOk(xs)
    ensures |es| == |xs|
  {
    seq(|xs|, i requires 0 <= i < |xs| => ScalarElem(Itoa(i), xs[i]))
  }

  ghost predicate DocFits(es: seq<Elem>) {
    |DocBytes(es)| <= MAX_INT32
  }

  /** The recursive serialisation of a value that is not an object. */
  ghost function FlatElem(key: Bytes, v: Payload): Option<Elem> {
    match v
    case One(x) => if ScalarOk(x) then Some(ScalarElem(key, x)) else None
    case Many(_, xs) =>
      if |xs| <= 1024 && ScalarsOk(xs) && DocFits(ArrayElems(xs))
      then Some(Elem(ARRAY, key, DocBytes(ArrayElems(xs))))
      else None
    case _ => None
  }

  ghost predicate Sorted(keys: seq<Bytes>) {
    forall i, j :: 0 <= i < j < |keys| ==> Less(keys[i], keys[j])
  }

  ghost predicate Enumerates(keys: seq<Bytes>, s: set<Bytes>) {
    forall k :: k in keys <==> k in s
  }

  lemma {:induction false} SortedIsUnique(a: seq<Bytes>, b: seq<Bytes>)
    requires Sorted(a) && Sorted(b) && forall k :: k in a <==> k in b
    ensures a == b
    decreases |a| + |b|, |a| < |b|
  {
    if |a| < |b| {
      SortedIsUnique(b, a);
    } else if a != [] {
      assert a[0] in a && a[0] in b;
      SortedHead(a, b);
      SortedHead(b, a);
      LessTotal(a[0], b[0]);
      SameTails(a, b);
      SortedIsUnique(a[1..], b[1..]);
      assert a == [a[0]] + a[1..] && b == [b[0]] + b[1..];
    }
  }

  lemma {:induction false} SortedHead(a: seq<Bytes>, b: seq<Bytes>)
    requires Sorted(a) && Sorted(b) && a != [] && b != [] && forall k :: k in a <==> k in b
    ensures !Less(a[0], b[0])
  {
    if Less(a[0], b[0]) {
      assert a[0] in b;
      var i :| 0 <= i < |b| && b[i] == a[0];
      LessIrreflexive(a[0]);
      if i > 0 {
        LessTransitive(a[0], b[0], b[i]);
      }
    }
  }

  lemma {:induction false} SameTails(a: seq<Bytes>, b: seq<Bytes>)
    requires Sorted(a) && Sorted(b) && a != [] && b != [] && a[0] == b[0] && forall k :: k in a <==> k in b
    ensures forall k :: k in a[1..] <==> k in b[1..]
    ensures Sorted(a[1..]) && Sorted(b[1..])
  {
    LessIrreflexive(a[0]);
    forall k ensures k in a[1..] <==> k in b[1..] {
      assert k in a <==> k == a[0] || k in a[1..] by { assert a == [a[0]] + a[1..]; }
      assert k in b <==> k == b[0] || k in b[1..] by { assert b == [b[0]] + b[1..]; }
      assert a[0] !in a[1..] && b[0] !in b[1..] by {
        assert forall i :: 0 <= i < |a| - 1 ==> a[1..][i] == a[i + 1];
        assert forall i :: 0 <= i < |b| - 1 ==> b[1..][i] == b[i + 1];
      }
    }
  }

  ghost predicate KeyOk(k: Bytes) {
    k != [] && NoZero(k)
  }

  /** Every entry can be sent: a proper key, and a value that is not itself an object. */
  ghost predicate EntriesOk(m: map<Bytes, Payload>, keys: seq<Bytes>) {
    forall i {:trigger keys[i]} :: 0 <= i < |keys| ==>
        keys[i] in m && KeyOk(keys[i]) && FlatElem(keys[i], m[keys[i]]).Some?
  }

  ghost function ObjectElems(m: map<Bytes, Payload>, keys: seq<Bytes>): (es: seq<Elem>)
    requires EntriesOk(m, keys)
    ensures |es| == |keys|
  {
    seq(|keys|, i requires 0 <= i < |keys| => FlatElem(keys[i], m[keys[i]]).value)
  }

  ghost predicate ObjectFits(m: map<Bytes, Payload>, keys: seq<Bytes>) {
    m != map[] && EntriesOk(m, keys) && DocFits(ObjectElems(m, keys))
  }

  function Insert(keys: seq<Bytes>, x: Bytes): seq<Bytes> {
    if keys == [] || Less(x, keys[0]) then [x] + keys else [keys[0]] + Insert(keys[1..], x)
  }

  lemma {:induction false} InsertMembers(keys: seq<Bytes>, x: Bytes)
    ensures forall k :: k in Insert(keys, x) <==> k == x || k in keys
    decreases |keys|
  {
    if keys != [] && !Less(x, keys[0]) {
      InsertMembers(keys[1..], x);
      assert forall k :: k in keys <==> k == keys[0] || k in keys[1..] by { assert keys == [keys[0]] + keys[1..]; }
    }
  }

  lemma {:induction false} InsertSorted(keys: seq<Bytes>, x: Bytes)
    requires Sorted(keys) && x !in keys
    ensures Sorted(Insert(keys, x))
    decreases |keys|
  {
    if keys != [] {
      if Less(x, keys[0]) {
        forall j | 0 < j < |keys| ensures Less(x, keys[j]) {
          LessTransitive(x, keys[0], keys[j]);
        }
      } else {
        LessTotal(x, keys[0]);
        var rest := Insert(keys[1..], x);
        InsertSorted(keys[1..], x);
        InsertMembers(keys[1..], x);
        forall j | 0 <= j < |rest| ensures Less(keys[0], rest[j]) {
          assert rest[j] in rest;
        }
      }
    }
  }

  /** The keys of an object in byte order. */
  ghost function SortedKeys(s: set<Bytes>): (keys: seq<Bytes>)
    ensures Sorted(keys) && Enumerates(keys, s)
  {
    if s == {} then [] else
      var x :| x in s;
      var rest := SortedKeys(s - {x});
      InsertSorted(rest, x);
      InsertMembers(rest, x);
      Insert(rest, x)
  }

  /** Collects the keys in whatever order the map yields them, and sorts. The result
      does not depend on that order. */
  method CollectKeys(m: map<Bytes, Payload>) returns (keys: seq<Bytes>)
    ensures keys == SortedKeys(m.Keys)
  {
    keys := [];
    var todo := m.Keys;
    while todo != {}
      invariant todo <= m.Keys && Sorted(keys) && Enumerates(keys, m.Keys - todo)
      decreases |todo|
    {
      var x :| x in todo;
      InsertSorted(keys, x);
      InsertMembers(keys, x);
      keys := Insert(keys, x);
      todo := todo - {x};
    }
    SortedIsUnique(keys, SortedKeys(m.Keys));
  }

  /** The recursive serialisation: what a value is as an element, if it can be sent. */
  ghost function ValueElem(key: Bytes, v: Payload): Option<Elem> {
    match v
    case Obj(m) =>
      var keys := SortedKeys(m.Keys);
      if ObjectFits(m, keys) then Some(Elem(DOCUMENT, key, DocBytes(ObjectElems(m, keys)))) else None
    case _ => FlatElem(key, v)
  }

  const KEY_V: Bytes := [118]
  const KEY_T: Bytes := [116]

  ghost predicate Sendable(v: Payload, ts: Option<int>) {
    ValueElem(KEY_V, v).Some? && (ts.Some? ==> InWindow(ts.value)) && DocFits(EnvelopeElems(v, ts))
  }

  ghost function EnvelopeElems(v: Payload, ts: Option<int>): seq<Elem>
    requires ValueElem(KEY_V, v).Some? && (ts.Some? ==> InWindow(ts.value))
  {
    [ValueElem(KEY_V, v).value] + (if ts.Some? then [ScalarElem(KEY_T, Time(ts.value))] else [])
  }

  ghost function AppendedTo(dst: Bytes, e: Option<Elem>): Option<Bytes> {
    if e.Some? then Some(dst + ElemBytes(e.value)) else None
  }

  function Header(dst: Bytes, tag: Byte, key: Bytes): Bytes {
    dst + [tag] + key + [0]
  }

  /** Terminates the document that starts at `start` and patches its length in. */
  method FinishDoc(doc: Bytes, start: nat) returns (r: Option<Bytes>)
    requires start + 4 <= |doc|
    ensures r == if |doc| + 1 - start > MAX_INT32 then None
                 else Some(doc[..start] + Le(|doc| + 1 - start, 4) + doc[start + 4..] + [0])
  {
    var more := doc + [0];
    var size := |more| - start;
    if size > MAX_INT32 {
      return None;
    }
    assert more[..start] == doc[..start] && more[start + 4..] == doc[start + 4..] + [0];
    assert doc[..start] + Le(size, 4) + (doc[start + 4..] + [0]) == doc[..start] + Le(size, 4) + doc[start + 4..] + [0];
    r := Some(more[..start] + Le(size, 4) + more[start + 4..]);
  }

  /** A header, four bytes to patch and the elements finish as one element holding the
      whole document. */
  lemma {:induction false} FinishIsDoc(dst: Bytes, tag: Byte, key: Bytes, es: seq<Elem>, hole: Bytes)
    requires |hole| == 4
    ensures var head := Header(dst, tag, key);
            var doc := head + hole + ElemsBytes(es);
            && |doc| + 1 - |head| == |DocBytes(es)|
            && doc[..|head|] + Le(|doc| + 1 - |head|, 4) + doc[|head| + 4..] + [0] == dst +
                ElemBytes(Elem(tag, key, DocBytes(es)))
  {
    var head := Header(dst, tag, key);
    var doc := head + hole + ElemsBytes(es);
    assert doc[..|head|] == head && doc[|head| + 4..] == ElemsBytes(es);
    assert dst + ElemBytes(Elem(tag, key, DocBytes(es))) == head + DocBytes(es);
  }

  /** Finishes the document written so far behind the header of its own element. */
  method FinishNested(dst: Bytes, tag: Byte, key: Bytes, doc: Bytes, ghost es: seq<Elem>) returns (r: Option<Bytes>)
    requires doc == Header(dst, tag, key) + [0, 0, 0, 0] + ElemsBytes(es)
    ensures r == if DocFits(es) then Some(dst + ElemBytes(Elem(tag, key, DocBytes(es)))) else None
  {
    FinishIsDoc(dst, tag, key, es, [0, 0, 0, 0]);
    r := FinishDoc(doc, |Header(dst, tag, key)|);
  }

  method AppendScalar(dst: Bytes, key: Bytes, x: Scalar) returns (r: Option<Bytes>)
    ensures r == AppendedTo(dst, FlatElem(key, One(x)))
  {
    var head := Header(dst, TagOf(x), key);
    assert ScalarOk(x) ==> dst + ElemBytes(ScalarElem(key, x)) == head + BodyOf(x);
    match x {
      case Double(bits) =>
        if !Finite(bits) { return None; }
        r := Some(head + Le(bits, 8));
      case Integer(i) =>
        r := Some(head + Le(Unsigned(i, WORD32), 4));
      case Long(l) =>
        r := Some(head + Le(Unsigned(l, WORD64), 8));
      case Boolean(b) =>
        r := Some(if b then head + [1] else head + [0]);
      case Text(s) =>
        if |s| > MAX_STRING || !Utf8(s) { return None; }
        r := Some(head + Le(|s| + 1, 4) + s + [0]);
        assert head + Le(|s| + 1, 4) + s + [0] == head + (Le(|s| + 1, 4) + s + [0]);
      case Blob(data) =>
        if |data| > MAX_INT32 { return None; }
        r := Some(head + Le(|data|, 4) + [0] + data);
        assert head + Le(|data|, 4) + [0] + data == head + (Le(|data|, 4) + [0] + data);
      case Time(nanos) =>
        if !InWindow(nanos) { return None; }
        MillisFit(nanos);
        r := Some(head + Le(Unsigned(Millis(nanos), WORD64), 8));
    }
  }

  lemma {:induction false} ArrayNext(xs: seq<Scalar>, i: nat)
    requires i < |xs| && ScalarsOk(xs[..i]) && ScalarOk(xs[i])
    ensures ScalarsOk(xs[..i + 1])
    ensures ElemsBytes(ArrayElems(xs[..i + 1])) == ElemsBytes(ArrayElems(xs[..i])) +
        ElemBytes(ScalarElem(Itoa(i), xs[i]))
  {
    var n := xs[..i + 1];
    forall j | 0 <= j < |n| ensures ScalarOk(n[j]) {
      assert j < i ==> n[j] == xs[..i][j];
    }
    assert ArrayElems(n)[..i] == ArrayElems(xs[..i]);
  }

  method AppendScalars(doc: Bytes, xs: seq<Scalar>) returns (r: Option<Bytes>)
    ensures r == if ScalarsOk(xs) then Some(doc + ElemsBytes(ArrayElems(xs))) else None
  {
    var cur := doc;
    assert xs[..0] == [] && ElemsBytes(ArrayElems(xs[..0])) == [];
    for i := 0 to |xs|
      invariant ScalarsOk(xs[..i])
      invariant cur == doc + ElemsBytes(ArrayElems(xs[..i]))
    {
      var more := AppendScalar(cur, Itoa(i), xs[i]);
      if more.None? {
        return None;
      }
      ArrayNext(xs, i);
      Associative(doc, ElemsBytes(ArrayElems(xs[..i])), ElemBytes(ScalarElem(Itoa(i), xs[i])));
      cur := more.value;
    }
    assert xs[..|xs|] == xs;
    r := Some(cur);
  }

  /** Appends a homogeneous array. */
  method AppendSlice(dst: Bytes, key: Bytes, kind: Kind, xs: seq<Scalar>) returns (r: Option<Bytes>)
    ensures r == AppendedTo(dst, FlatElem(key, Many(kind, xs)))
  {
    if |xs| > MAX_ARRAY {
      return None;
    }
    var doc := AppendScalars(Header(dst, ARRAY, key) + [0, 0, 0, 0], xs);
    if doc.None? {
      return None;
    }
    r := FinishNested(dst, ARRAY, key, doc.value, ArrayElems(xs));
  }

  lemma {:induction false} ObjectNext(m: map<Bytes, Payload>, keys: seq<Bytes>, i: nat)
    requires i < |keys| && EntriesOk(m, keys[..i]) && keys[i] in m && KeyOk(keys[i]) &&
        FlatElem(keys[i], m[keys[i]]).Some?
    ensures EntriesOk(m, keys[..i + 1])
    ensures ElemsBytes(ObjectElems(m, keys[..i + 1])) == ElemsBytes(ObjectElems(m, keys[..i])) +
        ElemBytes(FlatElem(keys[i], m[keys[i]]).value)
  {
    var n := keys[..i + 1];
    forall j | 0 <= j < |n| ensures n[j] in m && KeyOk(n[j]) && FlatElem(n[j], m[n[j]]).Some? {
      assert j < i ==> n[j] == keys[..i][j];
    }
    assert ObjectElems(m, n)[..i] == ObjectElems(m, keys[..i]);
  }

  predicate BadKey(k: Bytes)
    ensures BadKey(k) <==> !KeyOk(k)
  {
    k == [] || 0 in k
  }

  method AppendEntries(doc: Bytes, m: map<Bytes, Payload>, keys: seq<Bytes>) returns (r: Option<Bytes>)
    requires forall i {:trigger keys[i]} :: 0 <= i < |keys| ==> keys[i] in m
    ensures r == if EntriesOk(m, keys) then Some(doc + ElemsBytes(ObjectElems(m, keys))) else None
  {
    var cur := doc;
    assert keys[..0] == [] && ElemsBytes(ObjectElems(m, keys[..0])) == [];
    for i := 0 to |keys|
      invariant EntriesOk(m, keys[..i])
      invariant cur == doc + ElemsBytes(ObjectElems(m, keys[..i]))
    {
      var k := keys[i];
      if BadKey(k) || m[k].Obj? {
        return None;
      }
      var more := AppendFlat(cur, k, m[k]);
      if more.None? {
        return None;
      }
      ObjectNext(m, keys, i);
      Associative(doc, ElemsBytes(ObjectElems(m, keys[..i])), ElemBytes(FlatElem(k, m[k]).value));
      cur := more.value;
    }
    assert keys[..|keys|] == keys;
    r := Some(cur);
  }

  /** Appends an object as an embedded document, keys in byte order. */
  method AppendObject(dst: Bytes, key: Bytes, m: map<Bytes, Payload>) returns (r: Option<Bytes>)
    ensures r == AppendedTo(dst, ValueElem(key, Obj(m)))
  {
    if m == map[] {
      return None;
    }
    var keys := CollectKeys(m);
    forall i | 0 <= i < |keys| ensures keys[i] in m {
      assert keys[i] in keys;
    }
    var doc := AppendEntries(Header(dst, DOCUMENT, key) + [0, 0, 0, 0], m, keys);
    if doc.None? {
      return None;
    }
    r := FinishNested(dst, DOCUMENT, key, doc.value, ObjectElems(m, keys));
  }

  method AppendFlat(dst: Bytes, key: Bytes, v: Payload) returns (r: Option<Bytes>)
    requires !v.Obj?
    ensures r == AppendedTo(dst, FlatElem(key, v))
  {
    match v {
      case One(x) => r := AppendScalar(dst, key, x);
      case Many(kind, xs) => r := AppendSlice(dst, key, kind, xs);
      case Foreign => r := None;
    }
  }

  /** Appends one element for any value. */
  method AppendElement(dst: Bytes, key: Bytes, v: Payload) returns (r: Option<Bytes>)
    ensures r == AppendedTo(dst, ValueElem(key, v))
  {
    if v.Obj? {
      r := AppendObject(dst, key, v.m);
    } else {
      r := AppendFlat(dst, key, v);
    }
  }

  /** The whole payload: the appended and back-patched bytes are the recursive
      serialisation, in which every length prefix is the size of its own document. */
  method Encode(v: Payload, ts: Option<int>) returns (r: Option<Bytes>)
    ensures r.Some? <==> Sendable(v, ts)
    ensures r.Some? ==> r.value == DocBytes(EnvelopeElems(v, ts)) && DetectFormat(r.value) == FormatBson
  {
    var doc: Bytes := [0, 0, 0, 0];
    var withV := AppendElement(doc, KEY_V, v);
    if withV.None? {
      return None;
    }
    doc := withV.value;
    if ts.Some? {
      if !InWindow(ts.value) {
        return None;
      }
      MillisFit(ts.value);
      doc := Header(doc, DATETIME, KEY_T) + Le(Unsigned(Millis(ts.value), WORD64), 8);
    }
    EnvelopeSoFar(v, ts, withV.value);
    r := FinishEnvelope(doc, EnvelopeElems(v, ts));
  }

  method FinishEnvelope(doc: Bytes, ghost es: seq<Elem>) returns (r: Option<Bytes>)
    requires doc == [0, 0, 0, 0] + ElemsBytes(es)
    ensures r.Some? <==> DocFits(es)
    ensures r.Some? ==> r.value == DocBytes(es) && DetectFormat(r.value) == FormatBson
  {
    FinishIsEnvelope(es);
    r := FinishDoc(doc, 0);
    if r.Some? {
      DetectsBson(es);
    }
  }

  lemma {:induction false} EnvelopeSoFar(v: Payload, ts: Option<int>, withV: Bytes)
    requires ValueElem(KEY_V, v).Some? && (ts.Some? ==> InWindow(ts.value))
    requires withV == [0, 0, 0, 0] + ElemBytes(ValueElem(KEY_V, v).value)
    ensures ts.None? ==> withV == [0, 0, 0, 0] + ElemsBytes(EnvelopeElems(v, ts))
    ensures ts.Some? ==>
        Header(withV, DATETIME, KEY_T) + BodyOf(Time(ts.value)) == [0, 0, 0, 0] + ElemsBytes(EnvelopeElems(v, ts))
  {
    var e := ValueElem(KEY_V, v).value;
    OneElem(e);
    if ts.Some? {
      var t := ScalarElem(KEY_T, Time(ts.value));
      OneElem(t);
      ElemsAppend([e], [t]);
      Associative([0, 0, 0, 0], ElemBytes(e), ElemBytes(t));
      HeaderAndBody(withV, DATETIME, KEY_T, t.body);
    } else {
      assert EnvelopeElems(v, ts) == [e];
    }
  }

  lemma {:induction false} HeaderAndBody(dst: Bytes, tag: Byte, key: Bytes, body: Bytes)
    ensures Header(dst, tag, key) + body == dst + ElemBytes(Elem(tag, key, body))
  {
  }

  lemma {:induction false} FinishIsEnvelope(es: seq<Elem>)
    ensures var doc := [0, 0, 0, 0] + ElemsBytes(es);
            && |doc| + 1 == |DocBytes(es)|
            && doc[..0] + Le(|doc| + 1, 4) + doc[4..] + [0] == DocBytes(es)
  {
    var doc := [0, 0, 0, 0] + ElemsBytes(es);
    assert doc[4..] == ElemsBytes(es) && doc[..0] == [];
    assert [] + Le(|doc| + 1, 4) == Le(|doc| + 1, 4);
  }

  datatype Format = FormatInvalid | FormatEmpty | FormatBson | FormatJson

  predicate White(c: Byte) {
    c == 32 || c == 9 || c == 13 || c == 10
  }

  function FirstInk(p: Bytes): Option<Byte> {
    if p == [] then None else if White(p[0]) then FirstInk(p[1..]) else Some(p[0])
  }

  function DetectFormat(p: Bytes): Format {
    if p == [] then FormatEmpty
    else if 5 <= |p| <= MAX_INT32 && Value(p[..4]) == |p| && p[|p| - 1] == 0 then FormatBson
    else if FirstInk(p) == Some(123) then FormatJson
    else FormatInvalid
  }

  /** The sniffer's scanning loop. */
  method Detect(p: Bytes) returns (f: Format)
    ensures f == DetectFormat(p)
  {
    if p == [] {
      return FormatEmpty;
    }
    if |p| >= 5 && |p| <= MAX_INT32 && Value(p[..4]) == |p| && p[|p| - 1] == 0 {
      return FormatBson;
    }
    for i := 0 to |p|
      invariant FirstInk(p) == FirstInk(p[i..])
    {
      assert p[i..][0] == p[i] && p[i..][1..] == p[i + 1..];
      if !White(p[i]) {
        if p[i] == 123 {
          return FormatJson;
        }
        break;
      }
    }
    f := FormatInvalid;
  }

  lemma {:induction false} DetectsBson(es: seq<Elem>)
    requires DocFits(es)
    ensures DetectFormat(DocBytes(es)) == FormatBson
  {
    var b, n := DocBytes(es), |ElemsBytes(es)| + 5;
    Widths();
    LeRoundTrip(n, 4);
    assert b[..4] == Le(n, 4);
  }

  datatype ValueType = Single(kind: Kind) | ArrayOf(kind: Kind)

  /** Conversions between integers and doubles, as the platform's arithmetic does them;
      the last two refuse what is not exact. */
  datatype Coercions = Coercions(
    double32: Int32 -> FiniteBits, double64: Int64 -> Option<FiniteBits>, exact32: Word64 -> Option<Int32>)

  function DecodeTime(ms: int): Option<Scalar> {
    if MIN_MILLIS <= ms <= MAX_MILLIS then Some(Time(ms * NANOS_PER_MILLI)) else None
  }

  /** A little-endian signed integer of four or eight bytes. */
  function ReadInt(b: Bytes): Option<Int64> {
    Widths();
    if |b| == 4 then ValueBound(b); Some(Signed(Value(b), WORD32))
    else if |b| == 8 then ValueBound(b); Some(Signed(Value(b), WORD64))
    else None
  }

  lemma {:induction false} ValueBound(b: Bytes)
    ensures Value(b) < Pow256(|b|)
    decreases |b|
  {
    if b != [] {
      ValueBound(b[1..]);
    }
  }

  function DecodeDouble(c: Coercions, tag: Byte, b: Bytes): Option<Scalar> {
    Widths();
    ValueBound(b);
    var i := ReadInt(b);
    if i.None? then None
    else if tag == DOUBLE && |b| == 8 then
      if Finite(Value(b)) then Some(Double(Value(b))) else None
    else if tag == INT32 && |b| == 4 then Some(Double(c.double32(i.value)))
    else if tag == INT64 && |b| == 8 then
      var d := c.double64(i.value);
      if d.Some? then Some(Double(d.value)) else None
    else None
  }

  function DecodeInteger(c: Coercions, tag: Byte, b: Bytes): Option<Scalar> {
    Widths();
    ValueBound(b);
    var i := ReadInt(b);
    if i.None? then None
    else if tag == INT32 && |b| == 4 then Some(Integer(i.value))
    else if tag == INT64 && |b| == 8 then
      if -0x8000_0000 <= i.value < 0x8000_0000 then Some(Integer(i.value)) else None
    else if tag == DOUBLE && |b| == 8 then
      var d := c.exact32(Value(b));
      if d.Some? then Some(Integer(d.value)) else None
    else None
  }

  /** One raw value at its declared kind. */
  function DecodeScalar(c: Coercions, tag: Byte, b: Bytes, kind: Kind): Option<Scalar> {
    match kind
    case KDouble => DecodeDouble(c, tag, b)
    case KInteger => DecodeInteger(c, tag, b)
    case KLong =>
      var i := ReadInt(b);
      if ((tag == INT64 && |b| == 8) || (tag == INT32 && |b| == 4)) && i.Some? then Some(Long(i.value)) else None
    case KBoolean => if tag == BOOLEAN && |b| == 1 && b[0] <= 1 then Some(Boolean(b[0] == 1)) else None
    case KString =>
      if tag == STRING && |b| >= 5 && |b| - 5 <= MAX_STRING && Utf8(b[4..|b| - 1])
      then Some(Text(b[4..|b| - 1]))
      else None
    case KBlob => if tag == BINARY && |b| >= 5 then Some(Blob(b[5..])) else None
    case KTime =>
      var i := ReadInt(b);
      if tag == DATETIME && |b| == 8 && i.Some? then DecodeTime(i.value) else None
  }

  function DecodeAll(c: Coercions, es: seq<Elem>, kind: Kind): Option<seq<Scalar>> {
    if es == [] then Some([]) else
      var n := |es| - 1;
      var front, last := DecodeAll(c, es[..n], kind), DecodeScalar(c, es[n].tag, es[n].body, kind);
      if front.None? || last.None? then None else Some(front.value + [last.value])
  }

  /** A raw element at its declared type. */
  function DecodeValue(c: Coercions, e: Elem, vt: ValueType): Option<Payload> {
    match vt
    case Single(kind) =>
      var x := DecodeScalar(c, e.tag, e.body, kind);
      if x.Some? then Some(One(x.value)) else None
    case ArrayOf(kind) =>
      var es := ParseDoc(e.body);
      if e.tag != ARRAY || es.None? || |es.value| > MAX_ARRAY then None else
        var xs := DecodeAll(c, es.value, kind);
        if xs.Some? then Some(Many(kind, xs.value)) else None
  }

  ghost function DecodeEntries(
    c: Coercions, es: seq<Elem>, leaves: map<Bytes, ValueType>): Option<map<Bytes, Payload>> {
    if es == [] then Some(map[]) else
      var e := es[|es| - 1];
      var front := DecodeEntries(c, es[..|es| - 1], leaves);
      if front.None? || e.key !in leaves || e.key in front.value then None else
        var v := DecodeValue(c, e, leaves[e.key]);
        if v.None? then None else Some(front.value[e.key := v.value])
  }

  /** The elements of an object document: every key is a declared leaf, none repeats,
      every value decodes at the type of its leaf. */
  ghost predicate EntriesFit(c: Coercions, es: seq<Elem>, leaves: map<Bytes, ValueType>) {
    && (forall i, j :: 0 <= i < j < |es| ==> es[i].key != es[j].key)
    && (forall i {:trigger es[i]} :: 0 <= i < |es| ==>
          es[i].key in leaves && DecodeValue(c, es[i], leaves[es[i].key]).Some?)
  }

  /** `out` has exactly the keys of the elements, each with its decoded value. */
  ghost predicate HoldsEntries(c: Coercions, es: seq<Elem>, leaves: map<Bytes, ValueType>, out: map<Bytes, Payload>)
    requires EntriesFit(c, es, leaves)
  {
    && (forall i {:trigger es[i]} :: 0 <= i < |es| ==>
          es[i].key in out && out[es[i].key] == DecodeValue(c, es[i], leaves[es[i].key]).value)
    && (forall k {:trigger k in out} :: k in out ==> exists i :: 0 <= i < |es| && es[i].key == k)
  }

  /** The entry loop succeeds exactly on fitting elements, and then holds them all. */
  lemma {:induction false} EntriesIff(c: Coercions, es: seq<Elem>, leaves: map<Bytes, ValueType>)
    ensures DecodeEntries(c, es, leaves).Some? <==> EntriesFit(c, es, leaves)
    ensures EntriesFit(c, es, leaves) ==> HoldsEntries(c, es, leaves, DecodeEntries(c, es, leaves).value)
    decreases |es|
  {
    if es != [] {
      var n := |es| - 1;
      var front, e := es[..n], es[n];
      assert es == front + [e];
      EntriesIff(c, front, leaves);
      FitNext(c, front, e, leaves);
      if EntriesFit(c, es, leaves) {
        assert HoldsEntries(c, front, leaves, DecodeEntries(c, front, leaves).value);
        HoldsNext(c, front, e, leaves, DecodeEntries(c, front, leaves).value);
      }
    }
  }

  lemma {:induction false} FitNext(c: Coercions, es: seq<Elem>, e: Elem, leaves: map<Bytes, ValueType>)
    ensures EntriesFit(c, es + [e], leaves) <==>
            && EntriesFit(c, es, leaves) && (forall i :: 0 <= i < |es| ==> es[i].key != e.key)
            && e.key in leaves && DecodeValue(c, e, leaves[e.key]).Some?
  {
    var all := es + [e];
    assert all[|es|] == e && forall i :: 0 <= i < |es| ==> all[i] == es[i];
  }

  lemma {:induction false} HoldsNext(
    c: Coercions, es: seq<Elem>, e: Elem, leaves: map<Bytes, ValueType>, out: map<Bytes, Payload>)
    requires EntriesFit(c, es + [e], leaves) && EntriesFit(c, es, leaves) && HoldsEntries(c, es, leaves, out)
    requires e.key in leaves && DecodeValue(c, e, leaves[e.key]).Some?
    ensures e.key !in out
    ensures HoldsEntries(c, es + [e], leaves, out[e.key := DecodeValue(c, e, leaves[e.key]).value])
  {
    var all, more := es + [e], out[e.key := DecodeValue(c, e, leaves[e.key]).value];
    assert all[|es|] == e && forall i :: 0 <= i < |es| ==> all[i] == es[i];
    forall k | k in more ensures exists i :: 0 <= i < |all| && all[i].key == k {
      if k == e.key {
        assert all[|es|].key == k;
      } else {
        var i :| 0 <= i < |es| && es[i].key == k;
        assert all[i].key == k;
      }
    }
  }

  /** An element that holds an object for these leaves. */
  ghost predicate ObjectDecodes(c: Coercions, e: Elem, leaves: map<Bytes, ValueType>) {
    e.tag == DOCUMENT && ParseDoc(e.body).Some? && ParseDoc(e.body).value != [] &&
    EntriesFit(c, ParseDoc(e.body).value, leaves)
  }

  lemma {:induction false} ObjectIff(c: Coercions, e: Elem, leaves: map<Bytes, ValueType>)
    ensures ObjectOf(c, e, leaves).Some? <==> ObjectDecodes(c, e, leaves)
    ensures ObjectDecodes(c, e, leaves) ==>
              HoldsEntries(c, ParseDoc(e.body).value, leaves, ObjectOf(c, e, leaves).value)
  {
    if ParseDoc(e.body).Some? {
      EntriesIff(c, ParseDoc(e.body).value, leaves);
    }
  }

  /** The object decoder. It succeeds exactly on a non-empty document whose keys are
      declared leaves without repetition and whose values decode at their types; the
      result has exactly those keys. */
  method DecodeObject(c: Coercions, e: Elem, leaves: map<Bytes, ValueType>) returns (r: Option<map<Bytes, Payload>>)
    ensures r == ObjectOf(c, e, leaves)
    ensures r.Some? <==> ObjectDecodes(c, e, leaves)
    ensures r.Some? ==> HoldsEntries(c, ParseDoc(e.body).value, leaves, r.value)
  {
    hide EntriesFit, HoldsEntries, DecodeValue, ParseDoc;
    ObjectIff(c, e, leaves);
    if e.tag != DOCUMENT {
      return None;
    }
    var es := ParseDoc(e.body);
    if es.None? || es.value == [] {
      return None;
    }
    var out := map[];
    for i := 0 to |es.value|
      invariant DecodeEntries(c, es.value[..i], leaves) == Some(out)
    {
      var el := es.value[i];
      assert es.value[..i + 1][..i] == es.value[..i];
      EntriesFail(c, es.value, i + 1, leaves);
      if el.key !in leaves || el.key in out {
        return None;
      }
      var v := DecodeValue(c, el, leaves[el.key]);
      if v.None? {
        return None;
      }
      out := out[el.key := v.value];
    }
    assert es.value[..|es.value|] == es.value;
    r := Some(out);
  }

  ghost function ObjectOf(c: Coercions, e: Elem, leaves: map<Bytes, ValueType>): Option<map<Bytes, Payload>> {
    var es := ParseDoc(e.body);
    if e.tag != DOCUMENT || es.None? || es.value == [] then None else DecodeEntries(c, es.value, leaves)
  }

  lemma {:induction false} EntriesFail(c: Coercions, es: seq<Elem>, i: nat, leaves: map<Bytes, ValueType>)
    requires i <= |es|
    ensures DecodeEntries(c, es[..i], leaves).None? ==> DecodeEntries(c, es, leaves).None?
    decreases |es|
  {
    if i == |es| {
      assert es[..i] == es;
    } else {
      EntriesFail(c, es[..|es| - 1], i, leaves);
      assert es[..|es| - 1][..i] == es[..i];
    }
  }

  function Lookup(es: seq<Elem>, key: Bytes): Option<Elem> {
    if es == [] then None else if es[0].key == key then Some(es[0]) else Lookup(es[1..], key)
  }

  /** The envelope: the raw `v`, and `t` in nanoseconds when present. */
  function DecodeEnvelope(p: Bytes): Option<(Elem, Option<int>)> {
    var es := ParseDoc(p);
    if es.None? then None else
      var v, t := Lookup(es.value, KEY_V), Lookup(es.value, KEY_T);
      if v.None? then None
      else if t.None? then Some((v.value, None))
      else
        var ms := ReadInt(t.value.body);
        if t.value.tag != DATETIME || |t.value.body| != 8 || ms.None? || DecodeTime(ms.value).None? then None
        else Some((v.value, Some(ms.value * NANOS_PER_MILLI)))
  }

  /** Times keep millisecond precision on the wire. */
  function Truncate(nanos: int): int {
    Millis(nanos) * NANOS_PER_MILLI
  }

  function TruncateScalar(x: Scalar): Scalar {
    if x.Time? then Time(Truncate(x.nanos)) else x
  }

  ghost function TruncateAll(xs: seq<Scalar>): seq<Scalar> {
    if xs == [] then [] else TruncateAll(xs[..|xs| - 1]) + [TruncateScalar(xs[|xs| - 1])]
  }

  ghost function TruncateValue(v: Payload): Payload {
    match v
    case One(x) => One(TruncateScalar(x))
    case Many(kind, xs) => Many(kind, TruncateAll(xs))
    case _ => v
  }

  function TypeOf(v: Payload): ValueType {
    match v
    case One(x) => Single(KindOf(x))
    case Many(kind, _) => ArrayOf(kind)
    case _ => Single(KBoolean)
  }

  lemma {:induction false} ScalarBack(c: Coercions, x: Scalar)
    requires ScalarOk(x)
    ensures DecodeScalar(c, TagOf(x), BodyOf(x), KindOf(x)) == Some(TruncateScalar(x))
  {
    Widths();
    var b := BodyOf(x);
    match x {
      case Double(bits) => LeRoundTrip(bits, 8);
      case Integer(i) => LeRoundTrip(Unsigned(i, WORD32), 4);
      case Long(l) => LeRoundTrip(Unsigned(l, WORD64), 8);
      case Boolean(_) =>
      case Text(s) => assert b[4..|b| - 1] == s;
      case Blob(data) => assert b[5..] == data;
      case Time(nanos) =>
        MillisFit(nanos);
        LeRoundTrip(Unsigned(Millis(nanos), WORD64), 8);
    }
  }

  lemma {:induction false} ScalarReadable(key: Bytes, x: Scalar)
    requires ScalarOk(x) && NoZero(key)
    ensures Readable(ScalarElem(key, x))
  {
    var b := BodyOf(x);
    forall tail: Bytes ensures BodyLen(TagOf(x), b + tail) == Some(|b|) {
      Widths();
      if x.Text? {
        LeRoundTrip(|x.s| + 1, 4);
        assert (b + tail)[..4] == Le(|x.s| + 1, 4);
      } else if x.Blob? {
        LeRoundTrip(|x.data|, 4);
        assert (b + tail)[..4] == Le(|x.data|, 4);
      }
    }
  }

  lemma {:induction false} DocReadable(tag: Byte, key: Bytes, es: seq<Elem>)
    requires (tag == ARRAY || tag == DOCUMENT) && NoZero(key) && DocFits(es)
    ensures Readable(Elem(tag, key, DocBytes(es)))
  {
    var b := DocBytes(es);
    forall tail: Bytes ensures BodyLen(tag, b + tail) == Some(|b|) {
      Widths();
      LeRoundTrip(|ElemsBytes(es)| + 5, 4);
      assert (b + tail)[..4] == Le(|ElemsBytes(es)| + 5, 4);
    }
  }

  lemma {:induction false} ArrayReadable(xs: seq<Scalar>)
    requires ScalarsOk(xs)
    ensures AllReadable(ArrayElems(xs))
  {
    forall i | 0 <= i < |xs| ensures Readable(ArrayElems(xs)[i]) {
      ScalarReadable(Itoa(i), xs[i]);
    }
  }

  lemma {:induction false} ArrayBack(c: Coercions, kind: Kind, xs: seq<Scalar>)
    requires ScalarsOk(xs) && Typed(Many(kind, xs))
    ensures DecodeAll(c, ArrayElems(xs), kind) == Some(TruncateAll(xs))
    decreases |xs|
  {
    if xs != [] {
      var n := |xs| - 1;
      var front := xs[..n];
      assert forall i :: 0 <= i < n ==> front[i] == xs[i];
      ArrayBack(c, kind, front);
      assert ArrayElems(xs)[..n] == ArrayElems(front);
      ScalarBack(c, xs[n]);
    }
  }

  /** A value that is not an object comes back, times truncated, and its element can be
      found again wherever it stands. */
  lemma {:induction false} FlatBack(c: Coercions, key: Bytes, v: Payload)
    requires NoZero(key) && Typed(v) && FlatElem(key, v).Some?
    ensures Readable(FlatElem(key, v).value) && FlatElem(key, v).value.key == key
    ensures DecodeValue(c, FlatElem(key, v).value, TypeOf(v)) == Some(TruncateValue(v))
  {
    match v {
      case One(x) =>
        ScalarBack(c, x);
        ScalarReadable(key, x);
      case Many(kind, xs) =>
        ArrayReadable(xs);
        ParseDocBack(ArrayElems(xs));
        DocReadable(ARRAY, key, ArrayElems(xs));
        ArrayBack(c, kind, xs);
    }
  }

  ghost predicate Declares(leaves: map<Bytes, ValueType>, m: map<Bytes, Payload>) {
    forall k :: k in m ==> k in leaves && leaves[k] == TypeOf(m[k])
  }

  ghost function Taken(m: map<Bytes, Payload>, keys: seq<Bytes>): map<Bytes, Payload>
    requires forall i {:trigger keys[i]} :: 0 <= i < |keys| ==> keys[i] in m
  {
    map k | k in m && k in keys :: TruncateValue(m[k])
  }

  lemma {:induction false} EntriesReadable(c: Coercions, m: map<Bytes, Payload>, keys: seq<Bytes>)
    requires EntriesOk(m, keys) && Typed(Obj(m))
    ensures AllReadable(ObjectElems(m, keys))
  {
    forall i | 0 <= i < |keys| ensures Readable(ObjectElems(m, keys)[i]) {
      assert Typed(m[keys[i]]);
      FlatBack(c, keys[i], m[keys[i]]);
    }
  }

  lemma {:induction false} EntriesStep(c: Coercions, es: seq<Elem>, e: Elem, leaves: map<Bytes, ValueType>, v: Payload)
    requires DecodeEntries(c, es, leaves).Some? && e.key in leaves && e.key !in DecodeEntries(c, es, leaves).value
    requires DecodeValue(c, e, leaves[e.key]) == Some(v)
    ensures DecodeEntries(c, es + [e], leaves) == Some(DecodeEntries(c, es, leaves).value[e.key := v])
  {
    assert (es + [e])[..|es|] == es;
  }

  lemma {:induction false} ObjectElemsLast(m: map<Bytes, Payload>, keys: seq<Bytes>)
    requires EntriesOk(m, keys) && keys != []
    ensures EntriesOk(m, keys[..|keys| - 1]) && keys[|keys| - 1] in m && KeyOk(keys[|keys| - 1])
    ensures FlatElem(keys[|keys| - 1], m[keys[|keys| - 1]]).Some?
    ensures ObjectElems(m, keys) == ObjectElems(m, keys[..|keys| - 1]) +
        [FlatElem(keys[|keys| - 1], m[keys[|keys| - 1]]).value]
  {
    var n := |keys| - 1;
    assert forall i :: 0 <= i < n ==> keys[..n][i] == keys[i];
    ObjectNext(m, keys, n);
    assert keys[..n + 1] == keys;
  }

  lemma {:induction false} TakenLast(m: map<Bytes, Payload>, keys: seq<Bytes>)
    requires Sorted(keys) && keys != [] && forall i {:trigger keys[i]} :: 0 <= i < |keys| ==> keys[i] in m
    ensures forall i {:trigger keys[..|keys| - 1][i]} :: 0 <= i < |keys| - 1 ==> keys[..|keys| - 1][i] in m
    ensures keys[|keys| - 1] !in Taken(m, keys[..|keys| - 1])
    ensures Taken(m, keys) == Taken(m, keys[..|keys| - 1])[keys[|keys| - 1] := TruncateValue(m[keys[|keys| - 1]])]
  {
    LastIsNew(keys);
    assert forall i :: 0 <= i < |keys| - 1 ==> keys[..|keys| - 1][i] == keys[i];
  }

  lemma {:induction false} EntriesBack(
    c: Coercions, m: map<Bytes, Payload>, keys: seq<Bytes>, leaves: map<Bytes, ValueType>)
    requires EntriesOk(m, keys) && Sorted(keys) && Declares(leaves, m) && Typed(Obj(m))
    ensures DecodeEntries(c, ObjectElems(m, keys), leaves) == Some(Taken(m, keys))
    decreases |keys|
  {
    if keys != [] {
      var n := |keys| - 1;
      var k := keys[n];
      ObjectElemsLast(m, keys);
      TakenLast(m, keys);
      SortedFront(keys);
      EntriesBack(c, m, keys[..n], leaves);
      FlatBack(c, k, m[k]);
      EntriesStep(c, ObjectElems(m, keys[..n]), FlatElem(k, m[k]).value, leaves, TruncateValue(m[k]));
    }
  }

  lemma {:induction false} SortedFront(keys: seq<Bytes>)
    requires Sorted(keys) && keys != []
    ensures Sorted(keys[..|keys| - 1])
  {
  }

  lemma {:induction false} LastIsNew(keys: seq<Bytes>)
    requires Sorted(keys) && keys != []
    ensures keys[|keys| - 1] !in keys[..|keys| - 1]
    ensures forall k :: k in keys <==> k in keys[..|keys| - 1] || k == keys[|keys| - 1]
  {
    LessIrreflexive(keys[|keys| - 1]);
    assert keys == keys[..|keys| - 1] + [keys[|keys| - 1]];
  }

  /** The decoded form of a whole value: an object through its leaves, anything else at
      its own type. */
  ghost function DecodeAs(c: Coercions, e: Elem, v: Payload, leaves: map<Bytes, ValueType>): Option<Payload> {
    if v.Obj? then
      var m := ObjectOf(c, e, leaves);
      if m.Some? then Some(Obj(m.value)) else None
    else DecodeValue(c, e, TypeOf(v))
  }

  ghost function Received(v: Payload): Payload {
    match v
    case Obj(m) => Obj(map k | k in m :: TruncateValue(m[k]))
    case _ => TruncateValue(v)
  }

  lemma {:induction false} ValueBack(c: Coercions, key: Bytes, v: Payload, leaves: map<Bytes, ValueType>)
    requires NoZero(key) && Typed(v) && ValueElem(key, v).Some? && (v.Obj? ==> Declares(leaves, v.m))
    ensures Readable(ValueElem(key, v).value) && ValueElem(key, v).value.key == key
    ensures DecodeAs(c, ValueElem(key, v).value, v, leaves) == Some(Received(v))
  {
    if v.Obj? {
      var keys := SortedKeys(v.m.Keys);
      EntriesBack(c, v.m, keys, leaves);
      EntriesReadable(c, v.m, keys);
      ParseDocBack(ObjectElems(v.m, keys));
      DocReadable(DOCUMENT, key, ObjectElems(v.m, keys));
      assert Taken(v.m, keys) == map k | k in v.m :: TruncateValue(v.m[k]);
      NotEmpty(v.m, keys);
    } else {
      FlatBack(c, key, v);
    }
  }

  lemma {:induction false} NotEmpty(m: map<Bytes, Payload>, keys: seq<Bytes>)
    requires m != map[] && Enumerates(keys, m.Keys)
    ensures keys != []
  {
    var k :| k in m;
    assert k in keys;
  }

  /** Every payload that can be sent is read back: the value as declared and the explicit
      timestamp, both to the millisecond. */
  lemma {:induction false} PayloadRoundTrip(c: Coercions, v: Payload, ts: Option<int>, leaves: map<Bytes, ValueType>)
    requires Typed(v) && Sendable(v, ts) && (v.Obj? ==> Declares(leaves, v.m))
    ensures var r := DecodeEnvelope(DocBytes(EnvelopeElems(v, ts)));
            && r.Some? && DecodeAs(c, r.value.0, v, leaves) == Some(Received(v))
            && r.value.1 == if ts.Some? then Some(Truncate(ts.value)) else None
  {
    var es := EnvelopeElems(v, ts);
    ValueBack(c, KEY_V, v, leaves);
    EnvelopeReadable(v, ts);
    EnvelopeBack(es, ts);
  }

  lemma {:induction false} EnvelopeBack(es: seq<Elem>, ts: Option<int>)
    requires AllReadable(es) && DocFits(es) && es != [] && es[0].key == KEY_V && (ts.Some? ==> InWindow(ts.value))
    requires es == if ts.Some? then [es[0], ScalarElem(KEY_T, Time(ts.value))] else [es[0]]
    ensures DecodeEnvelope(DocBytes(es)) == Some((es[0], if ts.Some? then Some(Truncate(ts.value)) else None))
  {
    ParseDocBack(es);
    if ts.Some? {
      TimestampBack(ts.value);
      LookupTwo(es[0], es[1]);
    } else {
      LookupOne(es[0]);
    }
  }

  lemma {:induction false} EnvelopeReadable(v: Payload, ts: Option<int>)
    requires ValueElem(KEY_V, v).Some? && (ts.Some? ==> InWindow(ts.value)) && Readable(ValueElem(KEY_V, v).value)
    ensures AllReadable(EnvelopeElems(v, ts))
    ensures EnvelopeElems(v, ts) == if ts.Some? then [ValueElem(KEY_V, v).value, ScalarElem(KEY_T, Time(ts.value))]
        else [ValueElem(KEY_V, v).value]
  {
    if ts.Some? {
      ScalarReadable(KEY_T, Time(ts.value));
    }
  }

  lemma {:induction false} LookupOne(a: Elem)
    requires a.key == KEY_V
    ensures Lookup([a], KEY_V) == Some(a) && Lookup([a], KEY_T) == None
  {
    assert [a][1..] == [];
    assert KEY_V[0] != KEY_T[0];
  }

  lemma {:induction false} LookupTwo(a: Elem, b: Elem)
    requires a.key == KEY_V && b.key == KEY_T
    ensures Lookup([a, b], KEY_V) == Some(a) && Lookup([a, b], KEY_T) == Some(b)
  {
    assert [a, b][1..] == [b];
    assert KEY_V[0] != KEY_T[0];
  }

  lemma {:induction false} TimestampBack(nanos: int)
    requires InWindow(nanos)
    ensures var ms := ReadInt(BodyOf(Time(nanos)));
            ms == Some(Millis(nanos)) && DecodeTime(Millis(nanos)).Some?
  {
    Widths();
    MillisFit(nanos);
    LeRoundTrip(Unsigned(Millis(nanos), WORD64), 8);
  }

  /** Text without a zero byte, as all JSON is, is never taken for BSON. */
  lemma {:induction false} TextIsNotBson(p: Bytes)
    requires NoZero(p)
    ensures DetectFormat(p) != FormatBson
  {
  }

  ghost predicate WithinCaps(x: Scalar) {
    match x
    case Double(bits) => Finite(bits)
    case Text(s) => |s| <= MAX_STRING && Utf8(s)
    case Time(nanos) => InWindow(nanos) && nanos == Truncate(nanos)
    case _ => true
  }

  lemma {:induction false} WholeMillis(ms: int)
    ensures Truncate(ms * NANOS_PER_MILLI) == ms * NANOS_PER_MILLI
  {
    assert (ms * NANOS_PER_MILLI) / NANOS_PER_MILLI == ms;
  }

  lemma {:induction false} DecodedTimeFits(ms: int)
    requires DecodeTime(ms).Some?
    ensures KindOf(DecodeTime(ms).value) == KTime && WithinCaps(DecodeTime(ms).value)
  {
    WholeMillis(ms);
  }

  lemma {:induction false} DecodedDoubleFits(c: Coercions, tag: Byte, b: Bytes)
    requires DecodeDouble(c, tag, b).Some?
    ensures KindOf(DecodeDouble(c, tag, b).value) == KDouble && WithinCaps(DecodeDouble(c, tag, b).value)
  {
    Widths();
    ValueBound(b);
    var i := ReadInt(b).value;
    if tag == INT32 && |b| == 4 {
      var x: FiniteBits := c.double32(i);
    } else if tag == INT64 {
      var d: Option<FiniteBits> := c.double64(i);
      var x: FiniteBits := d.value;
    }
  }

  lemma {:induction false} DecodedScalarFits(c: Coercions, tag: Byte, b: Bytes, kind: Kind)
    requires DecodeScalar(c, tag, b, kind).Some?
    ensures KindOf(DecodeScalar(c, tag, b, kind).value) == kind && WithinCaps(DecodeScalar(c, tag, b, kind).value)
  {
    if kind == KTime {
      DecodedTimeFits(ReadInt(b).value);
    } else if kind == KDouble {
      DecodedDoubleFits(c, tag, b);
    } else {
      assert !DecodeScalar(c, tag, b, kind).value.Time?;
    }
  }

  lemma {:induction false} DecodedAllFit(c: Coercions, es: seq<Elem>, kind: Kind)
    requires DecodeAll(c, es, kind).Some?
    ensures |DecodeAll(c, es, kind).value| == |es|
    ensures forall i {:trigger DecodeAll(c, es, kind).value[i]} :: 0 <= i < |es| ==>
              KindOf(DecodeAll(c, es, kind).value[i]) == kind && WithinCaps(DecodeAll(c, es, kind).value[i])
    decreases |es|
  {
    if es != [] {
      var n := |es| - 1;
      DecodedAllFit(c, es[..n], kind);
      DecodedScalarFits(c, es[n].tag, es[n].body, kind);
      var front, all := DecodeAll(c, es[..n], kind).value, DecodeAll(c, es, kind).value;
      assert forall i :: 0 <= i < n ==> all[i] == front[i];
    }
  }

  /** A decoded value of a leaf: of its declared type, arrays, strings and times within
      their caps, doubles finite. */
  ghost predicate Fits(v: Payload, vt: ValueType) {
    && (v.One? || v.Many?) && TypeOf(v) == vt && Typed(v)
    && (v.One? ==> WithinCaps(v.x))
    && (v.Many? ==> |v.xs| <= 1024 && forall i {:trigger v.xs[i]} :: 0 <= i < |v.xs| ==> WithinCaps(v.xs[i]))
  }

  /** Whatever the bytes, a value that decodes fits its declared type. */
  lemma {:induction false} DecodedFits(c: Coercions, e: Elem, vt: ValueType)
    requires DecodeValue(c, e, vt).Some?
    ensures Fits(DecodeValue(c, e, vt).value, vt)
  {
    match vt {
      case Single(kind) => DecodedScalarFits(c, e.tag, e.body, kind);
      case ArrayOf(kind) => DecodedAllFit(c, ParseDoc(e.body).value, kind);
    }
  }

  /** Whatever the bytes, an object that decodes is not empty, has only declared keys,
      and each of its values fits the type of its leaf. */
  lemma {:induction false} DecodedObjectFits(c: Coercions, e: Elem, leaves: map<Bytes, ValueType>)
    requires ObjectOf(c, e, leaves).Some?
    ensures ObjectOf(c, e, leaves).value != map[]
    ensures forall k :: k in ObjectOf(c, e, leaves).value ==>
              k in leaves && Fits(ObjectOf(c, e, leaves).value[k], leaves[k])
  {
    ObjectIff(c, e, leaves);
    var es, out := ParseDoc(e.body).value, ObjectOf(c, e, leaves).value;
    assert es[0].key in out;
    forall k | k in out ensures k in leaves && Fits(out[k], leaves[k]) {
      var i :| 0 <= i < |es| && es[i].key == k;
      DecodedFits(c, es[i], leaves[k]);
    }
  }

  /** Whatever the bytes, a decoded timestamp is a whole millisecond within the window. */
  lemma {:induction false} DecodedEnvelopeFits(p: Bytes)
    requires DecodeEnvelope(p).Some? && DecodeEnvelope(p).value.1.Some?
    ensures WithinCaps(Time(DecodeEnvelope(p).value.1.value))
  {
    var t := Lookup(ParseDoc(p).value, KEY_T).value;
    DecodedTimeFits(ReadInt(t.body).value);
  }
}
