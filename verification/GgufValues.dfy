/**
  The pieces of a GGUF file: little-endian integers, strings, typed values and
  arrays, as read from the front of the remaining bytes and as written.

  A reader returns the value and what is left, or the error. Every round-trip
  lemma lets arbitrary bytes follow, so they compose.
 */
module GgufValues {
  import opened Utf8

  type Bytes = seq<byte>

  const MAX_ARRAY_DEPTH: nat := 8
  const MAX_DIMS: nat := 4

  datatype ReadError =
    | Truncated
    | InvalidUtf8
    | UnknownValueType(key: string, raw: nat)
    | InvalidBool(key: string, value: nat)
    | ArrayTooDeep(key: string)
    | BadMagic(raw: nat)
    | UnsupportedVersion(raw: nat)
    | DuplicateKey(key: string)
    | WrongAlignmentType
    | BadAlignment(value: nat)
    | TooManyDims(name: string, dims: nat)
    | UnsupportedTensorType(name: string, raw: nat)
    | DimOverflow(name: string)
    | BadBlockCount(name: string, elems: nat)
    | DuplicateTensor(name: string)
    | MisalignedTensor(name: string)
    | TensorOutOfBounds(name: string)

  /** A value read from the front, and what is left. */
  datatype Read<+T> = Got(value: T, rest: Bytes) | Fail(error: ReadError)

  // ------------------------------------------------------------- integers

  function Pow256(w: nat): (p: nat)
    ensures p > 0
  {
    if w == 0 then 1 else 256 * Pow256(w - 1)
  }

  /** One more than the largest `u64`. */
  const U64: nat := 0x1_0000_0000_0000_0000

  lemma Powers()
    ensures Pow256(1) == 256 && Pow256(4) == 0x1_0000_0000 && Pow256(8) == U64
  {
    assert Pow256(2) == 0x1_0000 && Pow256(3) == 0x100_0000;
    assert Pow256(5) == 0x100_0000_0000 && Pow256(6) == 0x1_0000_0000_0000;
    assert Pow256(7) == 0x100_0000_0000_0000;
  }

  function FromLe(bs: Bytes): (v: nat)
    ensures v < Pow256(|bs|)
  {
    if bs == [] then 0 else (bs[0] as nat) + 256 * FromLe(bs[1..])
  }

  function ToLe(v: nat, w: nat): (bs: Bytes)
    ensures |bs| == w
  {
    if w == 0 then [] else [v % 256] + ToLe(v / 256, w - 1)
  }

  lemma {:induction false} LeRoundTrip(v: nat, w: nat)
    requires v < Pow256(w)
    ensures FromLe(ToLe(v, w)) == v
    decreases w
  {
    if w > 0 {
      LeRoundTrip(v / 256, w - 1);
      assert ToLe(v, w)[1..] == ToLe(v / 256, w - 1);
    }
  }

  function Take(bs: Bytes, n: nat): (r: Read<Bytes>)
    ensures r.Got? ==> |r.value| == n && |r.rest| == |bs| - n
  {
    if n > |bs| then Fail(Truncated) else Got(bs[..n], bs[n..])
  }

  function ReadUint(bs: Bytes, w: nat): (r: Read<nat>)
    ensures r.Got? ==> r.value < Pow256(w) && |r.rest| == |bs| - w
  {
    match Take(bs, w)
    case Fail(e) => Fail(e)
    case Got(x, rest) => Got(FromLe(x), rest)
  }

  lemma UintBack(v: nat, w: nat, rest: Bytes)
    requires v < Pow256(w)
    ensures ReadUint(ToLe(v, w) + rest, w) == Got(v, rest)
  {
    LeRoundTrip(v, w);
    assert (ToLe(v, w) + rest)[..w] == ToLe(v, w) && (ToLe(v, w) + rest)[w..] == rest;
  }

  // --------------------------------------------------------------- strings

  function ReadText(bs: Bytes): (r: Read<string>)
    ensures r.Got? ==> |r.rest| + 8 <= |bs|
  {
    match ReadUint(bs, 8)
    case Fail(e) => Fail(e)
    case Got(len, rest) =>
      match Take(rest, len)
      case Fail(e) => Fail(e)
      case Got(x, after) =>
        match FromUtf8(x)
        case Valid(s) => Got(s, after)
        case Invalid(_, _) => Fail(InvalidUtf8)
  }

  function WriteText(s: string): Bytes {
    ToLe(|EncodeAll(s)|, 8) + EncodeAll(s)
  }

  predicate Sized(s: string) {
    |EncodeAll(s)| < U64
  }

  lemma TextBack(s: string, rest: Bytes)
    requires Sized(s)
    ensures ReadText(WriteText(s) + rest) == Got(s, rest)
  {
    var body := EncodeAll(s);
    Powers();
    assert WriteText(s) + rest == ToLe(|body|, 8) + (body + rest);
    UintBack(|body|, 8, body + rest);
    assert (body + rest)[..|body|] == body && (body + rest)[|body|..] == rest;
    FromUtf8OfEncoding(s);
  }

  // ---------------------------------------------------------------- values

  /** Fixed-width types. A value is kept as its bit pattern. */
  datatype Kind = U8 | I8 | U16 | I16 | U32 | I32 | F32 | U64K | I64 | F64

  datatype MetaValue = Scalar(kind: Kind, bits: nat) | Bool(b: bool) | Text(s: string) | Array(a: MetaArray)

  datatype MetaArray = Scalars(kind: Kind, bits: seq<nat>) | Bools(bs: seq<bool>) | Texts(ss: seq<string>) | Nested(arrays: seq<MetaArray>)

  function SizeOf(k: Kind): (w: nat)
    ensures 1 <= w <= 8
  {
    match k
    case U8 => 1 case I8 => 1
    case U16 => 2 case I16 => 2
    case U32 => 4 case I32 => 4 case F32 => 4
    case U64K => 8 case I64 => 8 case F64 => 8
  }

  function Code(k: Kind): (c: nat)
    ensures c < 13 && c !in {7, 8, 9}
  {
    match k
    case U8 => 0 case I8 => 1 case U16 => 2 case I16 => 3 case U32 => 4 case I32 => 5
    case F32 => 6 case U64K => 10 case I64 => 11 case F64 => 12
  }

  /** Whether a type code names a fixed-width type. */
  datatype KindCode = Known(value: Kind) | Other

  function KindOf(code: nat): (k: KindCode)
    ensures k.Known? ==> Code(k.value) == code
    ensures k.Other? ==> code in {7, 8, 9} || code > 12
  {
    if code == 0 then Known(U8) else if code == 1 then Known(I8) else if code == 2 then Known(U16)
    else if code == 3 then Known(I16) else if code == 4 then Known(U32) else if code == 5 then Known(I32)
    else if code == 6 then Known(F32) else if code == 10 then Known(U64K) else if code == 11 then Known(I64)
    else if code == 12 then Known(F64) else Other
  }

  lemma KindOfCode(k: Kind)
    ensures KindOf(Code(k)) == Known(k)
  {
  }

  function ReadBool(bs: Bytes, key: string): (r: Read<bool>)
    ensures r.Got? ==> |r.rest| < |bs|
  {
    match ReadUint(bs, 1)
    case Fail(e) => Fail(e)
    case Got(v, rest) => if v == 0 then Got(false, rest) else if v == 1 then Got(true, rest) else Fail(InvalidBool(key, v))
  }

  /** `take(count * size)`, with an overflowing product counted as truncation. */
  function TakeN(bs: Bytes, count: nat, size: nat): (r: Read<Bytes>)
    ensures r.Got? ==> |r.value| == count * size && |r.rest| <= |bs|
  {
    if count * size >= U64 then Fail(Truncated) else Take(bs, count * size)
  }

  /** `vec_from_le`. */
  function Chunks(bs: Bytes, w: nat): seq<nat>
    requires w > 0
  {
    if |bs| < w then [] else [FromLe(bs[..w])] + Chunks(bs[w..], w)
  }

  function BoolsOf(bs: Bytes, key: string, acc: seq<bool>, rest: Bytes): (r: Read<MetaArray>)
    ensures r.Got? ==> r.rest == rest
    decreases |bs|
  {
    if bs == [] then Got(Bools(acc), rest)
    else if bs[0] == 0 then BoolsOf(bs[1..], key, acc + [false], rest)
    else if bs[0] == 1 then BoolsOf(bs[1..], key, acc + [true], rest)
    else Fail(InvalidBool(key, bs[0]))
  }

  function ReadTexts(bs: Bytes, count: nat, acc: seq<string>): (r: Read<MetaArray>)
    ensures r.Got? ==> |r.rest| <= |bs|
    decreases count
  {
    if count == 0 then Got(Texts(acc), bs)
    else
      match ReadText(bs)
      case Fail(e) => Fail(e)
      case Got(s, rest) => ReadTexts(rest, count - 1, acc + [s])
  }

  function Room(depth: nat): nat {
    if depth >= MAX_ARRAY_DEPTH then 0 else MAX_ARRAY_DEPTH - depth
  }

  /** `read_array`. */
  function ReadArray(bs: Bytes, key: string, depth: nat): (r: Read<MetaArray>)
    ensures r.Got? ==> |r.rest| + 12 <= |bs|
    decreases Room(depth), 0
  {
    if depth >= MAX_ARRAY_DEPTH then Fail(ArrayTooDeep(key))
    else
      match ReadUint(bs, 4)
      case Fail(e) => Fail(e)
      case Got(ty, rest) =>
        match ReadUint(rest, 8)
        case Fail(e) => Fail(e)
        case Got(count, body) => ReadElements(body, key, depth, ty, count)
  }

  function ReadElements(bs: Bytes, key: string, depth: nat, ty: nat, count: nat): (r: Read<MetaArray>)
    requires depth < MAX_ARRAY_DEPTH
    ensures r.Got? ==> |r.rest| <= |bs|
    decreases Room(depth + 1), 2
  {
    if KindOf(ty).Known? then
      match TakeN(bs, count, SizeOf(KindOf(ty).value))
      case Fail(e) => Fail(e)
      case Got(x, rest) => Got(Scalars(KindOf(ty).value, Chunks(x, SizeOf(KindOf(ty).value))), rest)
    else if ty == 7 then
      match TakeN(bs, count, 1)
      case Fail(e) => Fail(e)
      case Got(x, rest) => BoolsOf(x, key, [], rest)
    else if ty == 8 then ReadTexts(bs, count, [])
    else if ty == 9 then ReadArrays(bs, key, depth + 1, count, [])
    else Fail(UnknownValueType(key, ty))
  }

  function ReadArrays(bs: Bytes, key: string, depth: nat, count: nat, acc: seq<MetaArray>): (r: Read<MetaArray>)
    ensures r.Got? ==> |r.rest| <= |bs|
    decreases Room(depth), 1, count
  {
    if count == 0 then Got(Nested(acc), bs)
    else
      match ReadArray(bs, key, depth)
      case Fail(e) => Fail(e)
      case Got(a, rest) => ReadArrays(rest, key, depth, count - 1, acc + [a])
  }

  /** `read_value`. */
  function ReadValue(bs: Bytes, ty: nat, key: string): (r: Read<MetaValue>)
    ensures r.Got? ==> |r.rest| < |bs|
  {
    if KindOf(ty).Known? then
      match ReadUint(bs, SizeOf(KindOf(ty).value))
      case Fail(e) => Fail(e)
      case Got(v, rest) => Got(Scalar(KindOf(ty).value, v), rest)
    else if ty == 7 then
      match ReadBool(bs, key)
      case Fail(e) => Fail(e)
      case Got(b, rest) => Got(Bool(b), rest)
    else if ty == 8 then
      match ReadText(bs)
      case Fail(e) => Fail(e)
      case Got(s, rest) => Got(Text(s), rest)
    else if ty == 9 then
      match ReadArray(bs, key, 0)
      case Fail(e) => Fail(e)
      case Got(a, rest) => Got(Array(a), rest)
    else Fail(UnknownValueType(key, ty))
  }

  // ---------------------------------------------------------------- writing

  function ArrayCode(a: MetaArray): nat {
    match a
    case Scalars(k, _) => Code(k)
    case Bools(_) => 7
    case Texts(_) => 8
    case Nested(_) => 9
  }

  function Count(a: MetaArray): nat {
    match a
    case Scalars(_, bits) => |bits|
    case Bools(bs) => |bs|
    case Texts(ss) => |ss|
    case Nested(arrays) => |arrays|
  }

  function WriteScalars(bits: seq<nat>, w: nat): (r: Bytes)
    ensures |r| == |bits| * w
  {
    if bits == [] then [] else ToLe(bits[0], w) + WriteScalars(bits[1..], w)
  }

  function WriteBools(bs: seq<bool>): (r: Bytes)
    ensures |r| == |bs|
  {
    if bs == [] then [] else [if bs[0] then 1 else 0] + WriteBools(bs[1..])
  }

  function WriteTexts(ss: seq<string>): Bytes {
    if ss == [] then [] else WriteText(ss[0]) + WriteTexts(ss[1..])
  }

  function WriteArray(a: MetaArray): Bytes
    decreases a, 1
  {
    ToLe(ArrayCode(a), 4) + ToLe(Count(a), 8) + WriteBody(a)
  }

  function WriteBody(a: MetaArray): Bytes
    decreases a, 0
  {
    match a
    case Scalars(k, bits) => WriteScalars(bits, SizeOf(k))
    case Bools(bs) => WriteBools(bs)
    case Texts(ss) => WriteTexts(ss)
    case Nested(arrays) => WriteArrays(arrays)
  }

  function WriteArrays(arrays: seq<MetaArray>): Bytes {
    if arrays == [] then [] else WriteArray(arrays[0]) + WriteArrays(arrays[1..])
  }

  function TypeCode(v: MetaValue): nat {
    match v
    case Scalar(k, _) => Code(k)
    case Bool(_) => 7
    case Text(_) => 8
    case Array(_) => 9
  }

  function WriteValue(v: MetaValue): Bytes {
    match v
    case Scalar(k, bits) => ToLe(bits, SizeOf(k))
    case Bool(b) => [if b then 1 else 0]
    case Text(s) => WriteText(s)
    case Array(a) => WriteArray(a)
  }

  /** What the format can hold: bit patterns of their width, counts and lengths of 64 bits, nesting within the parser's cap. */
  predicate Fits(a: MetaArray, depth: nat)
    decreases a
  {
    depth < MAX_ARRAY_DEPTH && Count(a) < U64 &&
    match a
    case Scalars(k, bits) => |bits| * SizeOf(k) < U64 && forall i | 0 <= i < |bits| :: bits[i] < Pow256(SizeOf(k))
    case Bools(_) => true
    case Texts(ss) => forall i | 0 <= i < |ss| :: Sized(ss[i])
    case Nested(arrays) => forall i | 0 <= i < |arrays| :: Fits(arrays[i], depth + 1)
  }

  predicate FitsValue(v: MetaValue) {
    match v
    case Scalar(k, bits) => bits < Pow256(SizeOf(k))
    case Bool(_) => true
    case Text(s) => Sized(s)
    case Array(a) => Fits(a, 0)
  }

  // ------------------------------------------------------------ what is read

  /** What is read fits: reading and writing agree on which values there are. */
  lemma {:induction false} ParsedFits(bs: Bytes, key: string, depth: nat)
    requires ReadArray(bs, key, depth).Got?
    ensures Fits(ReadArray(bs, key, depth).value, depth)
    decreases Room(depth), 0
  {
    hide ReadUint, ReadElements, Fits;
    Powers();
    var ty := ReadUint(bs, 4);
    var count := ReadUint(ty.rest, 8);
    ElementsFit(count.rest, key, depth, ty.value, count.value);
  }

  lemma {:induction false} ElementsFit(bs: Bytes, key: string, depth: nat, ty: nat, count: nat)
    requires depth < MAX_ARRAY_DEPTH && count < U64 && ReadElements(bs, key, depth, ty, count).Got?
    ensures Fits(ReadElements(bs, key, depth, ty, count).value, depth)
    decreases Room(depth + 1), 2
  {
    if KindOf(ty).Known? {
      var w := SizeOf(KindOf(ty).value);
      ChunksFit(TakeN(bs, count, w).value, w, count);
    } else if ty == 7 {
      BoolsCount(TakeN(bs, count, 1).value, key, [], TakeN(bs, count, 1).rest);
    } else if ty == 8 {
      TextsFit(bs, count, []);
    } else {
      ArraysFit(bs, key, depth + 1, count, []);
    }
  }

  lemma {:induction false} ChunksFit(bs: Bytes, w: nat, n: nat)
    requires w > 0 && |bs| == n * w
    ensures |Chunks(bs, w)| == n && forall i | 0 <= i < n :: Chunks(bs, w)[i] < Pow256(w)
    decreases n
  {
    if n > 0 {
      assert |bs| == w + (n - 1) * w;
      ChunksFit(bs[w..], w, n - 1);
    }
  }

  lemma {:induction false} BoolsCount(bs: Bytes, key: string, acc: seq<bool>, rest: Bytes)
    requires BoolsOf(bs, key, acc, rest).Got?
    ensures BoolsOf(bs, key, acc, rest).value.Bools? && |BoolsOf(bs, key, acc, rest).value.bs| == |acc| + |bs|
    decreases |bs|
  {
    if bs != [] {
      BoolsCount(bs[1..], key, acc + [bs[0] == 1], rest);
    }
  }

  predicate AllSized(ss: seq<string>) {
    forall i | 0 <= i < |ss| :: Sized(ss[i])
  }

  lemma TextIsSized(bs: Bytes)
    requires ReadText(bs).Got?
    ensures Sized(ReadText(bs).value)
  {
    Powers();
    var len := ReadUint(bs, 8);
    FromUtf8IsInverse(Take(len.rest, len.value).value);
  }

  lemma {:induction false} TextsFit(bs: Bytes, count: nat, acc: seq<string>)
    requires AllSized(acc) && ReadTexts(bs, count, acc).Got?
    ensures var r := ReadTexts(bs, count, acc).value; r.Texts? && |r.ss| == |acc| + count && AllSized(r.ss)
    decreases count
  {
    hide ReadText, Sized;
    if count > 0 {
      TextIsSized(bs);
      TextsFit(ReadText(bs).rest, count - 1, acc + [ReadText(bs).value]);
    }
  }

  predicate AllFit(arrays: seq<MetaArray>, depth: nat) {
    forall i | 0 <= i < |arrays| :: Fits(arrays[i], depth)
  }

  lemma {:induction false} ArraysFit(bs: Bytes, key: string, depth: nat, count: nat, acc: seq<MetaArray>)
    requires AllFit(acc, depth) && ReadArrays(bs, key, depth, count, acc).Got?
    ensures var r := ReadArrays(bs, key, depth, count, acc).value; r.Nested? && |r.arrays| == |acc| + count && AllFit(r.arrays, depth)
    decreases Room(depth), 1, count
  {
    hide ReadArray, Fits;
    if count > 0 {
      ParsedFits(bs, key, depth);
      ArraysFit(ReadArray(bs, key, depth).rest, key, depth, count - 1, acc + [ReadArray(bs, key, depth).value]);
    }
  }

  /** An array is the reading of some bytes exactly when it fits. */
  lemma FitsIff(a: MetaArray, key: string, depth: nat)
    ensures Fits(a, depth) <==> exists bs, rest :: ReadArray(bs, key, depth) == Got(a, rest)
  {
    hide Fits, ReadArray, WriteArray;
    if Fits(a, depth) {
      ArrayBack(a, key, depth, []);
    }
    if bs, rest :| ReadArray(bs, key, depth) == Got(a, rest) {
      ParsedFits(bs, key, depth);
    }
  }

  /** A value is the reading of some bytes exactly when it fits. */
  lemma FitsValueIff(v: MetaValue, key: string)
    ensures FitsValue(v) <==> exists bs, ty, rest :: ReadValue(bs, ty, key) == Got(v, rest)
  {
    if FitsValue(v) {
      ValueBack(v, key, []);
    }
    if bs, ty, rest :| ReadValue(bs, ty, key) == Got(v, rest) {
      ReadValueFits(bs, ty, key);
    }
    hide FitsValue, ReadValue;
  }

  lemma ReadValueFits(bs: Bytes, ty: nat, key: string)
    requires ReadValue(bs, ty, key).Got?
    ensures FitsValue(ReadValue(bs, ty, key).value)
  {
    hide ReadText, ReadArray, Sized, Fits;
    if ty == 8 {
      TextIsSized(bs);
    } else if ty == 9 {
      ParsedFits(bs, key, 0);
    }
  }

  // ------------------------------------------------------------ round trips

  lemma {:induction false} ScalarsBack(bits: seq<nat>, w: nat)
    requires w > 0 && forall i | 0 <= i < |bits| :: bits[i] < Pow256(w)
    ensures Chunks(WriteScalars(bits, w), w) == bits
    decreases |bits|
  {
    if bits == [] {
      assert WriteScalars(bits, w) == [];
    } else {
      var x, t := ToLe(bits[0], w), WriteScalars(bits[1..], w);
      ScalarsBack(bits[1..], w);
      LeRoundTrip(bits[0], w);
      assert (x + t)[..w] == x && (x + t)[w..] == t;
      assert |x + t| >= w;
    }
  }

  lemma {:induction false} BoolsBack(bs: seq<bool>, key: string, acc: seq<bool>, rest: Bytes)
    ensures BoolsOf(WriteBools(bs), key, acc, rest) == Got(Bools(acc + bs), rest)
    decreases |bs|
  {
    if bs == [] {
      assert acc + bs == acc;
    } else {
      assert WriteBools(bs)[1..] == WriteBools(bs[1..]);
      BoolsBack(bs[1..], key, acc + [bs[0]], rest);
      assert acc + [bs[0]] + bs[1..] == acc + bs;
    }
  }

  lemma {:induction false} TextsBack(ss: seq<string>, acc: seq<string>, rest: Bytes)
    requires forall i | 0 <= i < |ss| :: Sized(ss[i])
    ensures ReadTexts(WriteTexts(ss) + rest, |ss|, acc) == Got(Texts(acc + ss), rest)
    decreases |ss|
  {
    hide ReadText, WriteText, Sized;
    if ss == [] {
      assert acc + ss == acc && WriteTexts(ss) + rest == rest;
    } else {
      assert WriteTexts(ss) + rest == WriteText(ss[0]) + (WriteTexts(ss[1..]) + rest);
      TextBack(ss[0], WriteTexts(ss[1..]) + rest);
      TextsBack(ss[1..], acc + [ss[0]], rest);
      assert acc + [ss[0]] + ss[1..] == acc + ss;
    }
  }

  lemma HeaderBack(ty: nat, count: nat, body: Bytes, key: string, depth: nat)
    requires depth < MAX_ARRAY_DEPTH && ty < Pow256(4) && count < Pow256(8)
    ensures ReadArray(ToLe(ty, 4) + (ToLe(count, 8) + body), key, depth) == ReadElements(body, key, depth, ty, count)
  {
    UintBack(ty, 4, ToLe(count, 8) + body);
    UintBack(count, 8, body);
    hide ReadUint, ReadElements, ToLe, Pow256;
  }

  lemma WriteArraySplits(a: MetaArray, rest: Bytes)
    ensures WriteArray(a) + rest == ToLe(ArrayCode(a), 4) + (ToLe(Count(a), 8) + (WriteBody(a) + rest))
  {
    hide WriteBody, ToLe, ArrayCode, Count;
  }

  /** An array that fits reads back as itself, whatever follows it. */
  lemma {:induction false} ArrayBack(a: MetaArray, key: string, depth: nat, rest: Bytes)
    requires Fits(a, depth)
    ensures ReadArray(WriteArray(a) + rest, key, depth) == Got(a, rest)
    decreases a, 1
  {
    ElementsBack(a, key, depth, rest);
    Powers();
    WriteArraySplits(a, rest);
    HeaderBack(ArrayCode(a), Count(a), WriteBody(a) + rest, key, depth);
  }

  lemma {:induction false} ElementsBack(a: MetaArray, key: string, depth: nat, rest: Bytes)
    requires Fits(a, depth)
    ensures ReadElements(WriteBody(a) + rest, key, depth, ArrayCode(a), Count(a)) == Got(a, rest)
    decreases a, 0
  {
    match a
    case Scalars(k, bits) =>
      var x := WriteScalars(bits, SizeOf(k));
      ScalarsBack(bits, SizeOf(k));
      KindOfCode(k);
      assert (x + rest)[..|x|] == x && (x + rest)[|x|..] == rest;
    case Bools(bs) =>
      var x := WriteBools(bs);
      BoolsBack(bs, key, [], rest);
      assert [] + bs == bs;
      assert (x + rest)[..|x|] == x && (x + rest)[|x|..] == rest;
    case Texts(ss) =>
      TextsBack(ss, [], rest);
      assert [] + ss == ss;
    case Nested(arrays) =>
      ArraysBack(a, 0, key, depth + 1, rest);
      assert arrays[0..] == arrays && arrays[..0] == [];
  }

  lemma {:induction false} ArraysBack(a: MetaArray, i: nat, key: string, depth: nat, rest: Bytes)
    requires a.Nested? && i <= |a.arrays| && forall j | 0 <= j < |a.arrays| :: Fits(a.arrays[j], depth)
    ensures ReadArrays(WriteArrays(a.arrays[i..]) + rest, key, depth, |a.arrays| - i, a.arrays[..i]) == Got(a, rest)
    decreases a, 0, |a.arrays| - i
  {
    hide ReadArray, WriteArray;
    var all := a.arrays;
    if i == |all| {
      assert all[..i] == all && WriteArrays(all[i..]) + rest == rest;
    } else {
      var more := WriteArrays(all[i + 1..]) + rest;
      assert all[i..][1..] == all[i + 1..];
      assert WriteArrays(all[i..]) + rest == WriteArray(all[i]) + more;
      ArrayBack(all[i], key, depth, more);
      ArraysBack(a, i + 1, key, depth, rest);
      assert all[..i] + [all[i]] == all[..i + 1];
    }
  }

  /** A value that fits reads back as itself, whatever follows it. */
  lemma ValueBack(v: MetaValue, key: string, rest: Bytes)
    requires FitsValue(v)
    ensures ReadValue(WriteValue(v) + rest, TypeCode(v), key) == Got(v, rest)
  {
    Powers();
    hide ReadArray, WriteArray, ReadText, WriteText, Sized, Fits;
    match v
    case Scalar(k, bits) =>
      KindOfCode(k);
      UintBack(bits, SizeOf(k), rest);
    case Bool(b) =>
      var n := if b then 1 else 0;
      assert ToLe(n, 1) == [n];
      UintBack(n, 1, rest);
    case Text(s) => TextBack(s, rest);
    case Array(a) => ArrayBack(a, key, 0, rest);
  }
}
