/** What stands on the wire and what is read from it, in numbers: the element types of
    the BSON specification, version 1.1, byte orders, keys, and the conversions between
    element types and declared types. */
module BsonWire {
  import opened Wrappers
  import opened BsonBytes
  import opened BsonCodec

  /** Four and eight bytes are read least significant first. */
  lemma {:induction false} LittleEndian(b: Bytes)
    ensures |b| == 4 ==>
              Value(b) == b[0] as int + 0x100 * b[1] as int + 0x1_0000 * b[2] as int + 0x100_0000 * b[3] as int
    ensures |b| == 8 ==> Value(b) == Value(b[..4]) + 0x1_0000_0000 * Value(b[4..])
  {
    if |b| == 4 {
      LowBytes(b);
    } else if |b| == 8 {
      LowBytes(b);
      LowBytes(b[..4]);
    }
  }

  lemma {:induction false} LowBytes(b: Bytes)
    requires |b| >= 4
    ensures Value(b) == b[0] + 0x100 * b[1] + 0x1_0000 * b[2] + 0x100_0000 * b[3] + 0x1_0000_0000 * Value(b[4..])
  {
    assert b[1..][1..] == b[2..] && b[2..][1..] == b[3..] && b[3..][1..] == b[4..];
    assert Value(b[3..]) == b[3] + 256 * Value(b[4..]);
    assert Value(b[2..]) == b[2] + 256 * Value(b[3..]);
    assert Value(b[1..]) == b[1] + 256 * Value(b[2..]);
  }

  /** The element type and the value bytes of every scalar. */
  lemma {:induction false} WireForm(x: Scalar)
    requires ScalarOk(x)
    ensures var tag, b := TagOf(x), BodyOf(x);
            match x
            case Double(bits) => tag == 0x01 && |b| == 8 && Value(b) == bits
            case Text(s) =>
              tag == 0x02 && |b| == |s| + 5 && Value(b[..4]) == |s| + 1 && b[4..|s| + 4] == s && b[|s| + 4] == 0
            case Blob(data) =>
              tag == 0x05 && |b| == |data| + 5 && Value(b[..4]) == |data| && b[4] == 0 && b[5..] == data
            case Boolean(v) => tag == 0x08 && b == [if v then 1 else 0]
            case Time(nanos) =>
              tag == 0x09 && |b| == 8 &&
              exists ms: int :: ms * 1_000_000 <= nanos < (ms + 1) * 1_000_000 &&
                                Value(b) == if ms < 0 then ms + 0x1_0000_0000_0000_0000 else ms
            case Integer(i) => tag == 0x10 && |b| == 4 && Value(b) == if i < 0 then i + 0x1_0000_0000 else i
            case Long(l) => tag == 0x12 && |b| == 8 && Value(b) == if l < 0 then l + 0x1_0000_0000_0000_0000 else l
  {
    Widths();
    var b := BodyOf(x);
    match x {
      case Double(bits) => LeRoundTrip(bits, 8);
      case Integer(i) => LeRoundTrip(Unsigned(i, WORD32), 4);
      case Long(l) => LeRoundTrip(Unsigned(l, WORD64), 8);
      case Boolean(_) =>
      case Text(s) =>
        LeRoundTrip(|s| + 1, 4);
        assert b[..4] == Le(|s| + 1, 4) && b[4..|s| + 4] == s && b[|s| + 4] == 0;
      case Blob(data) =>
        LeRoundTrip(|data|, 4);
        assert b[..4] == Le(|data|, 4) && b[4] == 0 && b[5..] == data;
      case Time(nanos) =>
        MillisFit(nanos);
        LeRoundTrip(Unsigned(Millis(nanos), WORD64), 8);
        assert Millis(nanos) * 1_000_000 <= nanos < (Millis(nanos) + 1) * 1_000_000;
    }
  }

  /** The envelope: `v` first, then `t` as a datetime; arrays and objects are documents
      of type 4 and 3. */
  lemma {:induction false} EnvelopeForm(v: Payload, ts: Option<int>)
    requires ValueElem(KEY_V, v).Some? && (ts.Some? ==> InWindow(ts.value))
    ensures var es := EnvelopeElems(v, ts);
            && |es| == (if ts.Some? then 2 else 1) && es[0].key == ['v' as int]
            && (ts.Some? ==> es[1] == Elem(0x09, ['t' as int], BodyOf(Time(ts.value))))
            && (v.One? ==> es[0].tag == TagOf(v.x) && es[0].body == BodyOf(v.x))
            && (v.Many? ==> es[0].tag == 0x04)
            && (v.Obj? ==> es[0].tag == 0x03)
  {
  }

  function Decimal(b: Bytes): int {
    if b == [] then 0 else 10 * Decimal(b[..|b| - 1]) + (b[|b| - 1] - '0' as int)
  }

  /** The keys of an array are its indexes in decimal, without leading zeros. */
  lemma {:induction false} IndexKeys(i: nat)
    ensures Decimal(Itoa(i)) == i && Itoa(i) != []
    ensures forall k :: 0 <= k < |Itoa(i)| ==> '0' as int <= Itoa(i)[k] <= '9' as int
    ensures i > 0 ==> Itoa(i)[0] != '0' as int
  {
    if i >= 10 {
      IndexKeys(i / 10);
      assert Itoa(i)[..|Itoa(i)| - 1] == Itoa(i / 10);
    } else {
      assert Itoa(i)[..0] == [] && Decimal(Itoa(i)[..0]) == 0;
    }
  }

  /** `n` is where two keys part: one ends there, or has the smaller byte. */
  ghost predicate PartsAt(a: Bytes, b: Bytes, n: nat) {
    n <= |a| && n < |b| && a[..n] == b[..n] && (n == |a| || a[n] < b[n])
  }

  /** The key order is the lexicographic one. */
  lemma {:induction false} KeyOrderIs(a: Bytes, b: Bytes)
    ensures Less(a, b) <==> exists n: nat :: PartsAt(a, b, n)
    decreases |a|
  {
    if b == [] {
    } else if a == [] {
      assert PartsAt(a, b, 0);
    } else if a[0] < b[0] {
      assert PartsAt(a, b, 0);
    } else if a[0] == b[0] {
      KeyOrderIs(a[1..], b[1..]);
      if Less(a, b) {
        var n: nat :| PartsAt(a[1..], b[1..], n);
        assert a[..n + 1] == [a[0]] + a[1..][..n] && b[..n + 1] == [b[0]] + b[1..][..n];
        assert PartsAt(a, b, n + 1);
      }
      if n: nat :| PartsAt(a, b, n) {
        assert a[1..][..n - 1] == a[..n][1..] && b[1..][..n - 1] == b[..n][1..];
        assert PartsAt(a[1..], b[1..], n - 1);
      }
    } else if n: nat :| PartsAt(a, b, n) {
      assert n > 0 ==> a[..n][0] == a[0] && b[..n][0] == b[0];
    }
  }

  /** The element types a declared type is read from; everything else fails. */
  lemma {:induction false} OthersFail(c: Coercions, tag: Byte, b: Bytes, kind: Kind)
    ensures DecodeScalar(c, tag, b, kind).Some? ==>
              match kind
              case KDouble => tag == 0x01 || tag == 0x10 || tag == 0x12
              case KInteger => tag == 0x10 || tag == 0x12 || tag == 0x01
              case KLong => tag == 0x12 || tag == 0x10
              case KBoolean => tag == 0x08
              case KString => tag == 0x02
              case KBlob => tag == 0x05
              case KTime => tag == 0x09
    ensures DecodeScalar(c, tag, b, kind).Some? && (tag == 0x01 || tag == 0x12 || tag == 0x09) ==> |b| == 8
    ensures DecodeScalar(c, tag, b, kind).Some? && tag == 0x10 ==> |b| == 4
  {
  }

  /** A 32-bit integer element at each declared type that takes it. */
  lemma {:induction false} Int32Forms(c: Coercions, v: Int32)
    ensures DecodeScalar(c, 0x10, BodyOf(Integer(v)), KInteger) == Some(Integer(v))
    ensures DecodeScalar(c, 0x10, BodyOf(Integer(v)), KLong) == Some(Long(v))
    ensures DecodeScalar(c, 0x10, BodyOf(Integer(v)), KDouble) == Some(Double(c.double32(v)))
  {
    Widths();
    LeRoundTrip(Unsigned(v, WORD32), 4);
  }

  /** A 64-bit integer element: as a long itself, as an integer where it fits, as a
      double where the conversion is exact. */
  lemma {:induction false} Int64Forms(c: Coercions, v: Int64)
    ensures DecodeScalar(c, 0x12, BodyOf(Long(v)), KLong) == Some(Long(v))
    ensures DecodeScalar(c, 0x12, BodyOf(Long(v)), KInteger) ==
            if -0x8000_0000 <= v <= 0x7FFF_FFFF then Some(Integer(v)) else None
    ensures DecodeScalar(c, 0x12, BodyOf(Long(v)), KDouble) ==
            match c.double64(v) case None => None case Some(bits) => Some(Double(bits))
  {
    Widths();
    LeRoundTrip(Unsigned(v, WORD64), 8);
  }

  /** A double element: itself unless it is infinite or a NaN, and as an integer where it
      is exactly one. */
  lemma {:induction false} DoubleForms(c: Coercions, bits: Word64)
    ensures DecodeScalar(c, 0x01, Le(bits, 8), KDouble) == if Finite(bits) then Some(Double(bits)) else None
    ensures DecodeScalar(c, 0x01, Le(bits, 8), KInteger) ==
            match c.exact32(bits) case None => None case Some(i) => Some(Integer(i))
  {
    Widths();
    LeRoundTrip(bits, 8);
  }

  lemma {:induction false} TextForm(c: Coercions, size: nat, s: Bytes)
    ensures DecodeScalar(c, 0x02, Le(size, 4) + s + [0], KString) ==
            if |s| <= 65536 && Utf8(s) then Some(Text(s)) else None
  {
    var text := Le(size, 4) + s + [0];
    assert text[4..|text| - 1] == s;
  }

  /** A binary is taken whatever its subtype. */
  lemma {:induction false} BlobForm(c: Coercions, subtype: Byte, size: nat, s: Bytes)
    ensures DecodeScalar(c, 0x05, Le(size, 4) + [subtype] + s, KBlob) == Some(Blob(s))
  {
    var blob := Le(size, 4) + [subtype] + s;
    assert blob[5..] == s;
  }

  /** Booleans and datetimes. */
  lemma {:induction false} OtherForms(c: Coercions, ms: Int64)
    ensures DecodeScalar(c, 0x08, [0], KBoolean) == Some(Boolean(false))
    ensures DecodeScalar(c, 0x08, [1], KBoolean) == Some(Boolean(true))
    ensures DecodeScalar(c, 0x09, BodyOf(Long(ms)), KTime) ==
            if MIN_MILLIS <= ms <= MAX_MILLIS then Some(Time(ms * 1_000_000)) else None
  {
    Widths();
    LeRoundTrip(Unsigned(ms, WORD64), 8);
  }

  /** Every body of the right size is the body of some number, so the forms above are all. */
  lemma {:induction false} EveryBodyIsANumber(b: Bytes)
    ensures Le(Value(b), |b|) == b && Value(b) < Pow256(|b|)
    decreases |b|
  {
    ValueBound(b);
    if b != [] {
      EveryBodyIsANumber(b[1..]);
      assert Value(b) % 256 == b[0] && Value(b) / 256 == Value(b[1..]);
      assert b == [b[0]] + b[1..];
    }
  }

  /** An array decodes exactly when each element does, to the elements in order. */
  lemma {:induction false} ArrayIff(c: Coercions, es: seq<Elem>, kind: Kind)
    ensures var r := DecodeAll(c, es, kind);
            && (r.Some? <==>
                forall i {:trigger es[i]} :: 0 <= i < |es| ==> DecodeScalar(c, es[i].tag, es[i].body, kind).Some?)
            && (r.Some? ==> |r.value| == |es|)
            && (r.Some? ==> forall i {:trigger es[i]} :: 0 <= i < |es| ==>
                              DecodeScalar(c, es[i].tag, es[i].body, kind) == Some(r.value[i]))
    decreases |es|
  {
    if es != [] {
      var n := |es| - 1;
      ArrayIff(c, es[..n], kind);
      assert es == es[..n] + [es[n]];
      assert forall i :: 0 <= i < n ==> es[..n][i] == es[i];
    }
  }

  /** The first byte that is not white space is at `i`. */
  ghost predicate InkAt(p: Bytes, i: nat) {
    i < |p| && p[i] !in {32, 9, 13, 10} && forall k :: 0 <= k < i ==> p[k] in {32, 9, 13, 10}
  }

  lemma {:induction false} InkIff(p: Bytes, i: nat)
    ensures InkAt(p, i) ==> FirstInk(p) == Some(p[i])
    ensures FirstInk(p).Some? ==> exists k: nat :: InkAt(p, k) && FirstInk(p) == Some(p[k])
    decreases |p|
  {
    if p != [] {
      if White(p[0]) {
        InkIff(p[1..], if i > 0 then i - 1 else 0);
        if InkAt(p, i) {
          assert InkAt(p[1..], i - 1);
        }
        if FirstInk(p).Some? {
          var k: nat :| InkAt(p[1..], k) && FirstInk(p[1..]) == Some(p[1..][k]);
          assert InkAt(p, k + 1);
        }
      } else {
        assert InkAt(p, 0);
      }
    }
  }

  /** A payload is taken for BSON exactly when its first four bytes say its own length and
      it ends in a zero; else for JSON exactly when its first byte that is not white space
      is an opening brace. */
  lemma {:induction false} DetectIff(p: Bytes)
    ensures DetectFormat(p) == FormatEmpty <==> |p| == 0
    ensures DetectFormat(p) == FormatBson <==>
            |p| >= 5 && Value(p[..4]) == |p| && |p| <= 0x7FFF_FFFF && p[|p| - 1] == 0
    ensures DetectFormat(p) == FormatJson <==>
            DetectFormat(p) != FormatBson && exists i: nat :: InkAt(p, i) && p[i] == '{' as int
  {
    if i: nat :| InkAt(p, i) && p[i] == '{' as int {
      InkIff(p, i);
    } else {
      InkIff(p, 0);
    }
  }
}
