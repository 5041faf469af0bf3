/** The primitive serialisation tier of the connection (PreSerialize / PreDeserialize): fixed-width
    BitConverter encodings for the integer, bool, char, byte and TimeSpan types, UTF-8 for strings,
    element-wise concatenation for arrays, byte arrays passed through, and every other type handed
    to the host's Serialize / Deserialize hooks. The host is assumed little-endian. */
module Codec {
  import opened Bytes
  import opened Wrappers
  import Utf8

  /** The six integer types, by width and signedness. */
  datatype IntKind = I16 | I32 | I64 | U16 | U32 | U64

  function Width(k: IntKind): nat
  {
    match k
    case I16 => 2 case U16 => 2
    case I32 => 4 case U32 => 4
    case I64 => 8 case U64 => 8
  }

  predicate IsSigned(k: IntKind) { k.I16? || k.I32? || k.I64? }

  predicate InRange(k: IntKind, n: int)
  {
    if IsSigned(k) then InSignedRange(n, Width(k)) else InUnsignedRange(n, Width(k))
  }

  /** A value as the store sees it: null, a primitive, an array of primitives, a byte array, or an
      object of a host type (its type name and an opaque state). */
  datatype Value =
    | Null
    | Int(kind: IntKind, n: int)
    | Bool(b: bool)
    | Char(unit: int)                          // a UTF-16 code unit
    | Byte(octet: byte)
    | Str(s: string)
    | TimeSpan(ticks: int)
    | IntArray(elemKind: IntKind, ns: seq<int>)
    | BoolArray(bs: seq<bool>)
    | CharArray(units: seq<int>)
    | Bytes(bytes: seq<byte>)
    | Object(typeName: string, state: seq<int>)

  /** The C# type a value is decoded as: the `T` of PreDeserialize<T>. */
  datatype TypeTag =
    | TInt(kind: IntKind)
    | TBool | TChar | TByte | TString | TTimeSpan
    | TIntArray(elemKind: IntKind)
    | TBoolArray | TCharArray | TBytes
    | THost(name: string)

  /** The hooks a concrete connection supplies for every other type. */
  datatype HostCodec = HostCodec(
    serialize: Value -> seq<byte>,
    deserialize: (string, seq<byte>) -> Result<Value>)

  const CHAR_WIDTH: nat := 2
  const TICKS_WIDTH: nat := 8

  /** Values a C# program can hold: integers within their type's range. */
  predicate WellTyped(v: Value)
  {
    match v
    case Int(k, n) => InRange(k, n)
    case Char(u) => InUnsignedRange(u, CHAR_WIDTH)
    case TimeSpan(t) => InSignedRange(t, TICKS_WIDTH)
    case IntArray(k, ns) => forall i :: 0 <= i < |ns| ==> InRange(k, ns[i])
    case CharArray(us) => forall i :: 0 <= i < |us| ==> InUnsignedRange(us[i], CHAR_WIDTH)
    case _ => true
  }

  /** `object`, the element type of the dynamic dictionary. */
  const OBJECT: TypeTag := THost("System.Object")

  /** `v` can be passed where a `t` is expected: null, a value of type `t`, or anything as an
      `object`. */
  predicate Assignable(v: Value, t: TypeTag)
  {
    v.Null? || t == OBJECT || TypeOf(v) == t
  }

  /** The type a non-null value has. */
  function TypeOf(v: Value): TypeTag
    requires !v.Null?
  {
    match v
    case Int(k, _) => TInt(k)
    case Bool(_) => TBool
    case Char(_) => TChar
    case Byte(_) => TByte
    case Str(_) => TString
    case TimeSpan(_) => TTimeSpan
    case IntArray(k, _) => TIntArray(k)
    case BoolArray(_) => TBoolArray
    case CharArray(_) => TCharArray
    case Bytes(_) => TBytes
    case Object(name, _) => THost(name)
  }

  // ---------------------------------------------------------------- BitConverter

  function IntBytes(k: IntKind, n: int): seq<byte>
    requires InRange(k, n)
  {
    LE(Wrap(n, Width(k)), Width(k))
  }

  function BoolBytes(b: bool): seq<byte> { if b then [1] else [0] }

  function IntArrayBytes(k: IntKind, ns: seq<int>): seq<byte>
    requires forall i :: 0 <= i < |ns| ==> InRange(k, ns[i])
  {
    if |ns| == 0 then [] else IntBytes(k, ns[0]) + IntArrayBytes(k, ns[1..])
  }

  function BoolArrayBytes(bs: seq<bool>): seq<byte>
  {
    if |bs| == 0 then [] else BoolBytes(bs[0]) + BoolArrayBytes(bs[1..])
  }

  function CharArrayBytes(us: seq<int>): seq<byte>
    requires forall i :: 0 <= i < |us| ==> InUnsignedRange(us[i], CHAR_WIDTH)
  {
    if |us| == 0 then []
    else
      assert InUnsignedRange(us[0], CHAR_WIDTH);
      LE(us[0], CHAR_WIDTH) + CharArrayBytes(us[1..])
  }

  /** `BitConverter.ToIntNN(bytes, start)` and friends: the integer of `w` bytes at `start`, or an
      ArgumentException when they are not all there. */
  function ReadInt(k: IntKind, bytes: seq<byte>, start: nat): Result<int>
  {
    var w := Width(k);
    if start + w > |bytes| then Failure(ArgumentError)
    else
      var u := FromLE(bytes[start..start + w]);
      Success(if IsSigned(k) then Signed(u, w) else u)
  }

  // ---------------------------------------------------------------- PreSerialize

  /** `PreSerialize<T>(obj)`. */
  function PreSerialize(v: Value, host: HostCodec): seq<byte>
    requires WellTyped(v)
  {
    match v
    case Null => []
    case Int(k, n) => IntBytes(k, n)
    case Bool(b) => BoolBytes(b)
    case Char(u) => LE(u, CHAR_WIDTH)
    case Byte(b) => [b]
    case Str(s) => Utf8.Encode(s)
    case TimeSpan(t) => LE(Wrap(t, TICKS_WIDTH), TICKS_WIDTH)
    case IntArray(k, ns) => IntArrayBytes(k, ns)
    case BoolArray(bs) => BoolArrayBytes(bs)
    case CharArray(us) => CharArrayBytes(us)
    case Bytes(bs) => bs
    case Object(_, _) => host.serialize(v)
  }

  // ---------------------------------------------------------------- PreDeserialize

  /** The array decoders of the source keep a counter `i` that is advanced by 4 before each element
      is read, whatever the element width: element `j` is read at offset 4 * (j + 1). */
  function ArrayElementOffset(j: nat): nat { 4 * (j + 1) }

  function DecodeIntElements(k: IntKind, bytes: seq<byte>, from: nat, count: nat): (r: Result<seq<int>>)
    requires from <= count
    ensures r.Success? ==> |r.value| == count - from
    decreases count - from
  {
    if from >= count then Success([])
    else match ReadInt(k, bytes, ArrayElementOffset(from))
      case Failure(e) => Failure(e)
      case Success(x) =>
        match DecodeIntElements(k, bytes, from + 1, count)
        case Failure(e) => Failure(e)
        case Success(xs) => Success([x] + xs)
  }

  function DecodeBoolElements(bytes: seq<byte>, from: nat, count: nat): (r: Result<seq<bool>>)
    requires from <= count
    ensures r.Success? ==> |r.value| == count - from
    decreases count - from
  {
    if from >= count then Success([])
    else if ArrayElementOffset(from) >= |bytes| then Failure(ArgumentError)
    else match DecodeBoolElements(bytes, from + 1, count)
      case Failure(e) => Failure(e)
      case Success(bs) => Success([bytes[ArrayElementOffset(from)] != 0] + bs)
  }

  function DecodeCharElements(bytes: seq<byte>, from: nat, count: nat): (r: Result<seq<int>>)
    requires from <= count
    ensures r.Success? ==> |r.value| == count - from
    decreases count - from
  {
    if from >= count then Success([])
    else if ArrayElementOffset(from) + CHAR_WIDTH > |bytes| then Failure(ArgumentError)
    else
      var off := ArrayElementOffset(from);
      match DecodeCharElements(bytes, from + 1, count)
      case Failure(e) => Failure(e)
      case Success(us) => Success([FromLE(bytes[off..off + CHAR_WIDTH])] + us)
  }

  /** `PreDeserialize<T>(bytes)` for the type `t`. Scalars are read from offset 0 and extra bytes
      are ignored; arrays have `|bytes| / width` elements. */
  function PreDeserialize(t: TypeTag, bytes: seq<byte>, host: HostCodec): Result<Value>
  {
    match t
    case TInt(k) =>
      (match ReadInt(k, bytes, 0)
       case Success(n) => Success(Int(k, n))
       case Failure(e) => Failure(e))
    case TBool =>
      if |bytes| < 1 then Failure(ArgumentError) else Success(Bool(bytes[0] != 0))
    case TChar =>
      if |bytes| < CHAR_WIDTH then Failure(ArgumentError) else Success(Char(FromLE(bytes[..CHAR_WIDTH])))
    case TByte =>
      if |bytes| < 1 then Failure(IndexOutOfRange) else Success(Byte(bytes[0]))
    case TString => Success(Str(Utf8.Decode(bytes)))
    case TTimeSpan =>
      (match ReadInt(I64, bytes, 0)
       case Success(n) => Success(TimeSpan(n))
       case Failure(e) => Failure(e))
    case TIntArray(k) =>
      (match DecodeIntElements(k, bytes, 0, |bytes| / Width(k))
       case Success(ns) => Success(IntArray(k, ns))
       case Failure(e) => Failure(e))
    case TBoolArray =>
      (match DecodeBoolElements(bytes, 0, |bytes|)
       case Success(bs) => Success(BoolArray(bs))
       case Failure(e) => Failure(e))
    case TCharArray =>
      (match DecodeCharElements(bytes, 0, |bytes| / CHAR_WIDTH)
       case Success(us) => Success(CharArray(us))
       case Failure(e) => Failure(e))
    case TBytes => Success(Bytes(bytes))
    case THost(name) => host.deserialize(name, bytes)
  }

  // ---------------------------------------------------------------- properties

  /** The fixed width of each scalar type. */
  function ScalarWidth(t: TypeTag): nat
  {
    match t
    case TInt(k) => Width(k)
    case TChar => CHAR_WIDTH
    case TTimeSpan => TICKS_WIDTH
    case _ => 1
  }

  predicate IsScalar(v: Value)
  {
    v.Int? || v.Bool? || v.Char? || v.Byte? || v.TimeSpan?
  }

  /** null encodes to no bytes. */
  lemma NullEncodesEmpty(host: HostCodec)
    ensures PreSerialize(Null, host) == []
  {
  }

  /** Every scalar encodes to the fixed width of its type: 2 bytes for short, ushort and char, 4 for
      int and uint, 8 for long, ulong and TimeSpan, 1 for bool and byte. */
  lemma ScalarWidthFixed(v: Value, host: HostCodec)
    requires WellTyped(v) && IsScalar(v)
    ensures |PreSerialize(v, host)| == ScalarWidth(TypeOf(v))
    ensures ScalarWidth(TypeOf(v)) == (match TypeOf(v)
      case TInt(I16) => 2 case TInt(U16) => 2 case TChar => 2
      case TInt(I32) => 4 case TInt(U32) => 4
      case TInt(I64) => 8 case TInt(U64) => 8 case TTimeSpan => 8
      case _ => 1)
  {
  }

  lemma ReadIntOfIntBytes(k: IntKind, n: int, rest: seq<byte>)
    requires InRange(k, n)
    ensures ReadInt(k, IntBytes(k, n) + rest, 0) == Success(n)
  {
    var w := Width(k);
    var bs := IntBytes(k, n) + rest;
    assert bs[0..w] == IntBytes(k, n);
    FromLEOfLE(Wrap(n, w), w);
    if IsSigned(k) {
      SignedOfWrap(n, w);
    }
  }

  /** Decoding the encoding of a scalar gives the scalar back; the value is read from offset 0, so
      any bytes after it do not matter. */
  lemma ScalarRoundTrip(v: Value, rest: seq<byte>, host: HostCodec)
    requires WellTyped(v) && IsScalar(v)
    ensures PreDeserialize(TypeOf(v), PreSerialize(v, host) + rest, host) == Success(v)
  {
    match v
    case Int(k, n) =>
      ReadIntOfIntBytes(k, n, rest);
    case TimeSpan(t) =>
      ReadIntOfIntBytes(I64, t, rest);
    case Char(u) =>
      var bs := LE(u, CHAR_WIDTH) + rest;
      assert bs[..CHAR_WIDTH] == LE(u, CHAR_WIDTH);
      FromLEOfLE(u, CHAR_WIDTH);
    case Bool(b) =>
    case Byte(b) =>
  }

  /** Strings round-trip through UTF-8. */
  lemma StringRoundTrip(s: string, host: HostCodec)
    ensures PreDeserialize(TString, PreSerialize(Str(s), host), host) == Success(Str(s))
  {
    Utf8.DecodeEncode(s);
  }

  /** byte[] is passed through unchanged in both directions. */
  lemma BytesPassThrough(bs: seq<byte>, host: HostCodec)
    ensures PreSerialize(Bytes(bs), host) == bs
    ensures PreDeserialize(TBytes, bs, host) == Success(Bytes(bs))
  {
  }

  /** Types outside the primitive list go to the host hooks. */
  lemma HostFallback(name: string, state: seq<int>, bytes: seq<byte>, host: HostCodec)
    ensures PreSerialize(Object(name, state), host) == host.serialize(Object(name, state))
    ensures PreDeserialize(THost(name), bytes, host) == host.deserialize(name, bytes)
  {
  }

  /** An n-element integer array encodes to n * width bytes, element j at bytes [j*w, (j+1)*w). */
  lemma {:induction false} IntArrayLayout(k: IntKind, ns: seq<int>, j: nat)
    requires forall i :: 0 <= i < |ns| ==> InRange(k, ns[i])
    requires j < |ns|
    ensures |IntArrayBytes(k, ns)| == |ns| * Width(k)
    ensures IntArrayBytes(k, ns)[j * Width(k)..(j + 1) * Width(k)] == IntBytes(k, ns[j])
  {
    IntArrayLength(k, ns);
    var w := Width(k);
    if j == 0 {
      assert IntArrayBytes(k, ns)[..w] == IntBytes(k, ns[0]);
    } else {
      IntArrayLayout(k, ns[1..], j - 1);
      var tail := IntArrayBytes(k, ns[1..]);
      assert IntArrayBytes(k, ns) == IntBytes(k, ns[0]) + tail;
      assert IntArrayBytes(k, ns)[j * w..(j + 1) * w] == tail[(j - 1) * w..j * w];
    }
  }

  lemma {:induction false} IntArrayLength(k: IntKind, ns: seq<int>)
    requires forall i :: 0 <= i < |ns| ==> InRange(k, ns[i])
    ensures |IntArrayBytes(k, ns)| == |ns| * Width(k)
  {
    if |ns| > 0 {
      IntArrayLength(k, ns[1..]);
    }
  }

  lemma {:induction false} DecodeIntElementsAt(k: IntKind, bytes: seq<byte>, from: nat, count: nat, j: nat)
    requires from <= j < count
    requires DecodeIntElements(k, bytes, from, count).Success?
    ensures ReadInt(k, bytes, ArrayElementOffset(j)).Success?
    ensures DecodeIntElements(k, bytes, from, count).value[j - from] == ReadInt(k, bytes, ArrayElementOffset(j)).value
    decreases count - from
  {
    if j > from {
      DecodeIntElementsAt(k, bytes, from + 1, count, j);
    }
  }

  /** Integer array decoding yields |bytes| / width elements, and element j is the integer read at
      offset 4 * (j + 1), whatever the width. */
  lemma IntArrayDecodeLayout(k: IntKind, bytes: seq<byte>, host: HostCodec, j: nat)
    requires PreDeserialize(TIntArray(k), bytes, host).Success?
    ensures PreDeserialize(TIntArray(k), bytes, host).value.IntArray?
    ensures |PreDeserialize(TIntArray(k), bytes, host).value.ns| == |bytes| / Width(k)
    ensures j < |bytes| / Width(k) ==>
      ReadInt(k, bytes, 4 * (j + 1)).Success? &&
      PreDeserialize(TIntArray(k), bytes, host).value.ns[j] == ReadInt(k, bytes, 4 * (j + 1)).value
  {
    if j < |bytes| / Width(k) {
      DecodeIntElementsAt(k, bytes, 0, |bytes| / Width(k), j);
    }
  }

  lemma {:induction false} DecodeIntElementsFailsAt(k: IntKind, bytes: seq<byte>, from: nat, count: nat, j: nat)
    requires from <= j < count
    requires ReadInt(k, bytes, ArrayElementOffset(j)).Failure?
    ensures DecodeIntElements(k, bytes, from, count).Failure?
    decreases count - from
  {
    if j > from {
      DecodeIntElementsFailsAt(k, bytes, from + 1, count, j);
    }
  }

  /** Array round trip is not promised: the encoding of a non-empty short, int, ushort or uint array
      never decodes, because its last element is read past the end. */
  lemma NarrowArrayRoundTripFails(k: IntKind, ns: seq<int>, host: HostCodec)
    requires Width(k) <= 4 && |ns| >= 1
    requires forall i :: 0 <= i < |ns| ==> InRange(k, ns[i])
    ensures PreDeserialize(TIntArray(k), PreSerialize(IntArray(k, ns), host), host).Failure?
  {
    var bytes := IntArrayBytes(k, ns);
    IntArrayLength(k, ns);
    var count := |bytes| / Width(k);
    assert count == |ns|;
    DecodeIntElementsFailsAt(k, bytes, 0, count, count - 1);
  }

  lemma LongPairBytes()
    ensures IntArrayBytes(I64, [0, 1]) == [0, 0, 0, 0, 0, 0, 0, 0, 1, 0, 0, 0, 0, 0, 0, 0]
  {
    assert IntBytes(I64, 0) == [0, 0, 0, 0, 0, 0, 0, 0];
    assert IntBytes(I64, 1) == [1, 0, 0, 0, 0, 0, 0, 0];
    assert [0, 1][1..] == [1] && [1][1..] == [];
    assert IntArrayBytes(I64, [1]) == IntBytes(I64, 1) + IntArrayBytes(I64, []);
    assert IntArrayBytes(I64, [0, 1]) == IntBytes(I64, 0) + IntArrayBytes(I64, [1]);
  }

  lemma LongPairReads()
    ensures FromLE([0, 0, 0, 0, 1, 0, 0, 0]) == 0x1_0000_0000
    ensures FromLE([1, 0, 0, 0, 0, 0, 0, 0]) == 1
  {
    assert FromLE([1, 0, 0, 0]) == 1;
    assert FromLE([0, 1, 0, 0, 0]) == 0x100;
    assert FromLE([0, 0, 1, 0, 0, 0]) == 0x1_0000;
    assert FromLE([0, 0, 0, 1, 0, 0, 0]) == 0x100_0000;
    assert FromLE([0, 0, 0, 0, 0, 0, 0]) == 0;
  }

  lemma LongPairDecode(bytes: seq<byte>)
    requires bytes == [0, 0, 0, 0, 0, 0, 0, 0, 1, 0, 0, 0, 0, 0, 0, 0]
    ensures DecodeIntElements(I64, bytes, 0, 2) == Success([0x1_0000_0000, 1])
  {
    LongPairReads();
    assert bytes[4..12] == [0, 0, 0, 0, 1, 0, 0, 0];
    assert bytes[8..16] == [1, 0, 0, 0, 0, 0, 0, 0];
    assert Pow256(8) == 0x1_0000_0000_0000_0000 by {
      assert Pow256(4) == 0x1_0000_0000;
    }
    assert ReadInt(I64, bytes, 4) == Success(0x1_0000_0000);
    assert ReadInt(I64, bytes, 8) == Success(1);
    assert DecodeIntElements(I64, bytes, 2, 2) == Success([]);
    DecodeIntElementsCons(I64, bytes, 1, 2, 1, []);
    assert ArrayElementOffset(0) == 4 && ArrayElementOffset(1) == 8;
    assert [1] + [] == [1];
    DecodeIntElementsCons(I64, bytes, 0, 2, 0x1_0000_0000, [1]);
    assert [0x1_0000_0000] + [1] == [0x1_0000_0000, 1];
  }

  lemma DecodeIntElementsCons(k: IntKind, bytes: seq<byte>, from: nat, count: nat, x: int, xs: seq<int>)
    requires from < count
    requires ReadInt(k, bytes, ArrayElementOffset(from)) == Success(x)
    requires DecodeIntElements(k, bytes, from + 1, count) == Success(xs)
    ensures DecodeIntElements(k, bytes, from, count) == Success([x] + xs)
  {
  }

  /** A long array does not round-trip either: [0, 1] decodes, but element 0 is read from bytes
      4..12 (the high half of 0 and the low half of 1), giving [2^32, 1]. */
  /** The long array `[0, 1]` encodes to its two 8-byte elements. */
  lemma LongPairSerialized(host: HostCodec)
    ensures PreSerialize(IntArray(I64, [0, 1]), host) == [0, 0, 0, 0, 0, 0, 0, 0, 1, 0, 0, 0, 0, 0, 0, 0]
  {
    var v := IntArray(I64, [0, 1]);
    assert WellTyped(v) by {
      assert Pow256(8) / 2 > 1 by { assert Pow256(8) == 256 * Pow256(7); }
    }
    assert PreSerialize(v, host) == IntArrayBytes(I64, [0, 1]);
    LongPairBytes();
  }

  lemma LongArrayRoundTripWrong(host: HostCodec)
    ensures PreDeserialize(TIntArray(I64), PreSerialize(IntArray(I64, [0, 1]), host), host)
         == Success(IntArray(I64, [0x1_0000_0000, 1]))
  {
    var bytes: seq<byte> := [0, 0, 0, 0, 0, 0, 0, 0, 1, 0, 0, 0, 0, 0, 0, 0];
    LongPairSerialized(host);
    assert |bytes| / Width(I64) == 2;
    LongPairDecode(bytes);
    DeserializeIntArray(I64, bytes, host);
  }

  lemma DeserializeIntArray(k: IntKind, bytes: seq<byte>, host: HostCodec)
    ensures var d := DecodeIntElements(k, bytes, 0, |bytes| / Width(k));
      PreDeserialize(TIntArray(k), bytes, host) == if d.Success? then Success(IntArray(k, d.value)) else Failure(d.error)
  {
  }


  /** The empty arrays do round-trip. */
  lemma EmptyIntArrayRoundTrip(k: IntKind, host: HostCodec)
    ensures PreDeserialize(TIntArray(k), PreSerialize(IntArray(k, []), host), host) == Success(IntArray(k, []))
  {
  }
}
