/** Byte-level building blocks of the payload codec: little-endian integers, decimal
    array indexes, key order, UTF-8, and the shape of BSON elements and documents. */
module BsonBytes {
  import opened Wrappers

  type Byte = x: int | 0 <= x < 256

  type Bytes = seq<Byte>

  const MAX_INT32 := 0x7FFF_FFFF
  const WORD32 := 0x1_0000_0000
  const WORD64 := 0x1_0000_0000_0000_0000

  function Pow256(k: nat): (p: nat)
    ensures p > 0
  {
    if k == 0 then 1 else 256 * Pow256(k - 1)
  }

  /** `k` bytes of `v`, least significant first. */
  function Le(v: nat, k: nat): (b: Bytes)
    ensures |b| == k
  {
    if k == 0 then [] else [v % 256] + Le(v / 256, k - 1)
  }

  function Value(b: Bytes): nat {
    if b == [] then 0 else b[0] + 256 * Value(b[1..])
  }

  lemma {:induction false} LeRoundTrip(v: nat, k: nat)
    requires v < Pow256(k)
    ensures Value(Le(v, k)) == v
    decreases k
  {
    if k > 0 {
      assert v / 256 < Pow256(k - 1);
      LeRoundTrip(v / 256, k - 1);
      assert Le(v, k)[1..] == Le(v / 256, k - 1);
    }
  }

  lemma {:induction false} Widths()
    ensures Pow256(4) == WORD32 && Pow256(8) == WORD64
  {
    assert Pow256(1) == 256;
    assert Pow256(2) == 65536;
    assert Pow256(3) == 16777216;
    assert Pow256(4) == WORD32;
    assert Pow256(5) == 1099511627776;
    assert Pow256(6) == 281474976710656;
    assert Pow256(7) == 72057594037927936;
  }

  /** Two's complement in `word` values. */
  function Unsigned(x: int, word: nat): (u: nat)
    requires -(word as int) <= 2 * x < word
    ensures u < word && Signed(u, word) == x
  {
    if x < 0 then x + word else x
  }

  function Signed(u: nat, word: nat): int {
    if 2 * u >= word then u - word else u
  }

  ghost predicate NoZero(b: Bytes) {
    forall i :: 0 <= i < |b| ==> b[i] != 0
  }

  /** The decimal digits of an array index. */
  function Itoa(i: nat): (b: Bytes)
    ensures NoZero(b)
  {
    if i < 10 then [48 + i] else Itoa(i / 10) + [48 + i % 10]
  }

  /** The string order of the sort: lexicographic on bytes. */
  predicate Less(a: Bytes, b: Bytes) {
    if b == [] then false
    else if a == [] then true
    else a[0] < b[0] || (a[0] == b[0] && Less(a[1..], b[1..]))
  }

  lemma {:induction false} LessTotal(a: Bytes, b: Bytes)
    ensures a == b || Less(a, b) || Less(b, a)
    decreases |a|
  {
    if a != [] && b != [] && a[0] == b[0] {
      LessTotal(a[1..], b[1..]);
      assert a == [a[0]] + a[1..] && b == [b[0]] + b[1..];
    }
  }

  lemma {:induction false} LessIrreflexive(a: Bytes)
    ensures !Less(a, a)
    decreases |a|
  {
    if a != [] {
      LessIrreflexive(a[1..]);
    }
  }

  lemma {:induction false} LessTransitive(a: Bytes, b: Bytes, c: Bytes)
    requires Less(a, b) && Less(b, c)
    ensures Less(a, c)
    decreases |a|
  {
    if a != [] && a[0] == b[0] && b[0] == c[0] {
      LessTransitive(a[1..], b[1..], c[1..]);
    }
  }

  predicate Cont(b: Byte) {
    0x80 <= b <= 0xBF
  }

  /** Well-formed UTF-8: no overlong forms, no surrogates, nothing above U+10FFFF. */
  predicate Utf8(s: Bytes) {
    if s == [] then true
    else if s[0] < 0x80 then Utf8(s[1..])
    else if 0xC2 <= s[0] <= 0xDF then |s| >= 2 && Cont(s[1]) && Utf8(s[2..])
    else if 0xE0 <= s[0] <= 0xEF then
      |s| >= 3 && Cont(s[1]) && Cont(s[2]) && (s[0] == 0xE0 ==> s[1] >= 0xA0) && (s[0] == 0xED ==> s[1] <= 0x9F) &&
          Utf8(s[3..])
    else if 0xF0 <= s[0] <= 0xF4 then
      |s| >= 4 && Cont(s[1]) && Cont(s[2]) && Cont(s[3]) &&
      (s[0] == 0xF0 ==> s[1] >= 0x90) && (s[0] == 0xF4 ==> s[1] <= 0x8F) && Utf8(s[4..])
    else false
  }

  const DOUBLE: Byte := 0x01
  const STRING: Byte := 0x02
  const DOCUMENT: Byte := 0x03
  const ARRAY: Byte := 0x04
  const BINARY: Byte := 0x05
  const BOOLEAN: Byte := 0x08
  const DATETIME: Byte := 0x09
  const INT32: Byte := 0x10
  const INT64: Byte := 0x12

  /** One element: type, key, value bytes. */
  datatype Elem = Elem(tag: Byte, key: Bytes, body: Bytes)

  function ElemBytes(e: Elem): Bytes {
    [e.tag] + e.key + [0] + e.body
  }

  function ElemsBytes(es: seq<Elem>): Bytes {
    if es == [] then [] else ElemsBytes(es[..|es| - 1]) + ElemBytes(es[|es| - 1])
  }

  /** A document: its own size, its elements, a zero byte. */
  function DocBytes(es: seq<Elem>): Bytes {
    Le(|ElemsBytes(es)| + 5, 4) + ElemsBytes(es) + [0]
  }

  function IndexOfZero(b: Bytes): (i: nat)
    ensures i <= |b| && (i < |b| ==> b[i] == 0)
    ensures forall k :: 0 <= k < i ==> b[k] != 0
  {
    if b == [] || b[0] == 0 then 0 else
      var i := IndexOfZero(b[1..]);
      assert forall k :: 0 < k < i + 1 ==> b[k] == b[1..][k - 1];
      i + 1
  }

  /** How many bytes a value of this type takes at the front of `b`. */
  function BodyLen(tag: Byte, b: Bytes): Option<nat> {
    if tag == DOUBLE || tag == DATETIME || tag == INT64 then Some(8)
    else if tag == INT32 then Some(4)
    else if tag == BOOLEAN then Some(1)
    else if |b| < 4 then None
    else
      var n := Value(b[..4]);
      if tag == STRING then
        if 1 <= n && 4 + n <= |b| && b[3 + n] == 0 then Some(4 + n) else None
      else if tag == DOCUMENT || tag == ARRAY then
        if 5 <= n <= |b| && b[n - 1] == 0 then Some(n) else None
      else if tag == BINARY then Some(5 + n)
      else None
  }

  /** Reading elements: the grammar of the BSON specification, version 1.1, one level
      deep. */
  function ParseElems(b: Bytes): Option<seq<Elem>> {
    if b == [] then Some([]) else
      var z := IndexOfZero(b[1..]);
      if z == |b| - 1 then None else
        var rest := b[z + 2..];
        var n := BodyLen(b[0], rest);
        if n.None? || n.value > |rest| then None else
          var more := ParseElems(rest[n.value..]);
          if more.None? then None else Some([Elem(b[0], b[1..z + 1], rest[..n.value])] + more.value)
  }

  function ParseDoc(b: Bytes): Option<seq<Elem>> {
    if |b| < 5 || Value(b[..4]) != |b| || b[|b| - 1] != 0 then None else ParseElems(b[4..|b| - 1])
  }

  /** An element a reader finds again wherever it stands. */
  ghost predicate Readable(e: Elem) {
    NoZero(e.key) && forall tail: Bytes :: BodyLen(e.tag, e.body + tail) == Some(|e.body|)
  }

  lemma {:induction false} ElemSplits(e: Elem, tail: Bytes)
    ensures var b, after := ElemBytes(e) + tail, e.body + tail;
            && b[0] == e.tag && b[1..] == e.key + [0] + after
            && b[1..|e.key| + 1] == e.key && b[|e.key| + 2..] == after
            && after[..|e.body|] == e.body && after[|e.body|..] == tail
  {
    var b, after := ElemBytes(e) + tail, e.body + tail;
    assert b == [e.tag] + (e.key + [0] + after);
    assert b[1..] == e.key + [0] + after;
  }

  lemma {:induction false} ParseFront(e: Elem, tail: Bytes)
    requires Readable(e)
    ensures ParseElems(ElemBytes(e) + tail) ==
            var more := ParseElems(tail); if more.None? then None else Some([e] + more.value)
  {
    hide BodyLen, IndexOfZero, ParseElems;
    ElemSplits(e, tail);
    KeyEnds(e.key, e.body + tail);
    ParseStep(ElemBytes(e) + tail, e, e.body + tail, tail);
  }

  /** One step of the reader, at a front that holds `e`. */
  lemma {:induction false} ParseStep(b: Bytes, e: Elem, after: Bytes, tail: Bytes)
    requires |b| > |e.key| + 1 && b[0] == e.tag && IndexOfZero(b[1..]) == |e.key|
    requires b[1..|e.key| + 1] == e.key && b[|e.key| + 2..] == after
    requires |e.body| <= |after| && after[..|e.body|] == e.body && after[|e.body|..] == tail
    requires BodyLen(e.tag, after) == Some(|e.body|)
    ensures ParseElems(b) == var more := ParseElems(tail); if more.None? then None else Some([e] + more.value)
  {
    hide BodyLen, IndexOfZero;
  }

  lemma {:induction false} KeyEnds(key: Bytes, after: Bytes)
    requires NoZero(key)
    ensures IndexOfZero(key + [0] + after) == |key|
  {
    var b := key + [0] + after;
    var i := IndexOfZero(b);
    assert b[|key|] == 0;
    assert forall k :: 0 <= k < |key| ==> b[k] == key[k];
  }

  lemma {:induction false} Associative(a: Bytes, b: Bytes, c: Bytes)
    ensures (a + b) + c == a + (b + c)
  {
  }

  lemma {:induction false} OneElem(e: Elem)
    ensures ElemsBytes([e]) == ElemBytes(e)
  {
    assert [e][..0] == [];
  }

  lemma {:induction false} ElemsAppend(a: seq<Elem>, b: seq<Elem>)
    ensures ElemsBytes(a + b) == ElemsBytes(a) + ElemsBytes(b)
    decreases |b|
  {
    if b == [] {
      assert a + b == a;
    } else {
      var n := |b| - 1;
      ElemsAppend(a, b[..n]);
      assert (a + b)[..|a + b| - 1] == a + b[..n] && (a + b)[|a + b| - 1] == b[n];
      Associative(ElemsBytes(a), ElemsBytes(b[..n]), ElemBytes(b[n]));
    }
  }

  ghost predicate AllReadable(es: seq<Elem>) {
    forall i {:trigger es[i]} :: 0 <= i < |es| ==> Readable(es[i])
  }

  /** Reading back what was written. */
  lemma {:induction false} ParseBack(es: seq<Elem>)
    requires AllReadable(es)
    ensures ParseElems(ElemsBytes(es)) == Some(es)
    decreases |es|
  {
    if es != [] {
      var head, tail := es[..1], es[1..];
      assert es == head + tail;
      ElemsAppend(head, tail);
      assert head == [es[0]];
      OneElem(es[0]);
      assert AllReadable(tail);
      ParseBack(tail);
      ParseFront(es[0], ElemsBytes(tail));
    }
  }

  lemma {:induction false} ParseDocBack(es: seq<Elem>)
    requires AllReadable(es) && |DocBytes(es)| <= MAX_INT32
    ensures ParseDoc(DocBytes(es)) == Some(es)
    ensures Value(DocBytes(es)[..4]) == |DocBytes(es)| && DocBytes(es)[|DocBytes(es)| - 1] == 0
  {
    var b, n := DocBytes(es), |ElemsBytes(es)| + 5;
    Widths();
    LeRoundTrip(n, 4);
    assert b[..4] == Le(n, 4);
    assert b[4..|b| - 1] == ElemsBytes(es);
    ParseBack(es);
  }
}
