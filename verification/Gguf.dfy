/**
  The GGUF file: header, metadata, tensor table, aligned data section. `Parse`
  reads it, `Build` writes it; what is accepted is aligned and in range.
 */
module Ggufs {
  import opened Arithmetic
  import opened GgufValues
  import opened Utf8

  const MAGIC: nat := 0x4655_4747
  const VERSION: nat := 3
  const DEFAULT_ALIGNMENT: nat := 32

  datatype Dtype = F32Tensor | F16Tensor | Q4_0 | Q8_0 | Q6_K

  datatype TensorInfo = TensorInfo(name: string, dims: seq<nat>, dtype: Dtype, offset: nat, byteLen: nat)

  type Kvs = seq<(string, MetaValue)>

  datatype Gguf = Gguf(alignment: nat, kvs: Kvs, tensors: seq<TensorInfo>, index: map<string, nat>, dataStart: nat, data: Bytes)

  datatype Result<+T> = Ok(value: T) | Err(error: ReadError)

  // ---------------------------------------------------------------- tensors

  function RawOf(d: Dtype): nat {
    match d
    case F32Tensor => 0
    case F16Tensor => 1
    case Q4_0 => 2
    case Q8_0 => 8
    case Q6_K => 14
  }

  /** The supported types among ggml's. */
  predicate Supported(raw: nat) {
    raw == 0 || raw == 1 || raw == 2 || raw == 8 || raw == 14
  }

  function DtypeOf(raw: nat): (d: Dtype)
    requires Supported(raw)
    ensures RawOf(d) == raw
  {
    if raw == 0 then F32Tensor else if raw == 1 then F16Tensor else if raw == 2 then Q4_0 else if raw == 8 then Q8_0 else Q6_K
  }

  function BlockElems(d: Dtype): (n: nat)
    ensures n > 0
  {
    match d
    case F32Tensor => 1
    case F16Tensor => 1
    case Q4_0 => 32
    case Q8_0 => 32
    case Q6_K => 256
  }

  function BlockBytes(d: Dtype): nat {
    match d
    case F32Tensor => 4
    case F16Tensor => 2
    case Q4_0 => 18
    case Q8_0 => 34
    case Q6_K => 210
  }

  /** Whole blocks only, and a size of 64 bits. */
  predicate WholeBlocks(d: Dtype, elems: nat) {
    elems % BlockElems(d) == 0 && elems / BlockElems(d) * BlockBytes(d) < U64
  }

  function ByteLen(d: Dtype, elems: nat): nat {
    elems / BlockElems(d) * BlockBytes(d)
  }

  /** Every partial product fits 64 bits. */
  predicate DimsFit(dims: seq<nat>, acc: nat) {
    dims == [] || (acc * dims[0] < U64 && DimsFit(dims[1..], acc * dims[0]))
  }

  function Product(dims: seq<nat>, acc: nat): nat {
    if dims == [] then acc else Product(dims[1..], acc * dims[0])
  }

  /** All dimensions multiplied, in the order given. */
  function Volume(dims: seq<nat>): nat {
    if dims == [] then 1 else dims[0] * Volume(dims[1..])
  }

  lemma {:induction false} ProductIsVolume(dims: seq<nat>, acc: nat)
    ensures Product(dims, acc) == acc * Volume(dims)
    decreases |dims|
  {
    if dims != [] {
      ProductIsVolume(dims[1..], acc * dims[0]);
      assert acc * dims[0] * Volume(dims[1..]) == acc * (dims[0] * Volume(dims[1..]));
    }
  }

  lemma {:induction false} VolumeWithout(dims: seq<nat>, j: nat)
    requires j < |dims|
    ensures Volume(dims) == dims[j] * Volume(dims[..j] + dims[j + 1..])
    decreases j
  {
    if j == 0 {
      assert dims[..0] + dims[1..] == dims[1..];
    } else {
      VolumeWithout(dims[1..], j - 1);
      var rest := dims[..j] + dims[j + 1..];
      assert rest[0] == dims[0] && rest[1..] == dims[1..][..j - 1] + dims[1..][j..];
      assert dims[0] * (dims[j] * Volume(rest[1..])) == dims[j] * (dims[0] * Volume(rest[1..]));
    }
  }

  lemma MultisetWithout(s: seq<nat>, j: nat)
    requires j < |s|
    ensures multiset(s[..j] + s[j + 1..]) == multiset(s) - multiset{s[j]}
  {
    assert s == s[..j] + [s[j]] + s[j + 1..];
  }

  /** The order of the dimensions does not matter to the volume. */
  lemma {:induction false} VolumeOfPermutation(a: seq<nat>, b: seq<nat>)
    requires multiset(a) == multiset(b)
    ensures Volume(a) == Volume(b)
    decreases |a|
  {
    if a == [] {
      assert |multiset(b)| == 0;
    } else {
      assert a[0] in multiset(b);
      var j :| 0 <= j < |b| && b[j] == a[0];
      MultisetWithout(a, 0);
      MultisetWithout(b, j);
      assert a[..0] + a[1..] == a[1..];
      VolumeOfPermutation(a[1..], b[..j] + b[j + 1..]);
      VolumeWithout(a, 0);
      VolumeWithout(b, j);
      hide Volume;
    }
  }

  /** The elements of up to four dimensions, written out. */
  function Elements(d: seq<nat>): nat
    requires |d| <= 4
  {
    if |d| == 0 then 1 else if |d| == 1 then d[0] else if |d| == 2 then d[0] * d[1]
    else if |d| == 3 then d[0] * d[1] * d[2] else d[0] * d[1] * d[2] * d[3]
  }

  /** A tensor's size in bytes is that of its elements: 4 bytes, 2 bytes, or 18, 34 and 210 bytes to a block of 32, 32 and 256. */
  predicate SizeIsElements(t: TensorInfo) {
    |t.dims| <= 4 &&
    match t.dtype
    case F32Tensor => t.byteLen == 4 * Elements(t.dims)
    case F16Tensor => t.byteLen == 2 * Elements(t.dims)
    case Q4_0 => 32 * t.byteLen == 18 * Elements(t.dims)
    case Q8_0 => 32 * t.byteLen == 34 * Elements(t.dims)
    case Q6_K => 256 * t.byteLen == 210 * Elements(t.dims)
  }

  lemma ElementsAreVolume(d: seq<nat>)
    requires |d| <= 4
    ensures Elements(d) == Product(d, 1)
  {
    if |d| == 1 {
      assert d[1..] == [];
    } else if |d| == 2 {
      assert d[1..][1..] == [];
      assert Product(d, 1) == Product(d[1..], d[0]);
    } else if |d| == 3 {
      ThreeFactors(d);
    } else if |d| == 4 {
      FourFactors(d);
    }
  }

  lemma ThreeFactors(d: seq<nat>)
    requires |d| == 3
    ensures Product(d, 1) == d[0] * d[1] * d[2]
  {
    var a, b := d[1..], d[2..];
    assert a[1..] == b && b[1..] == [];
    assert Product(d, 1) == Product(a, d[0]);
    assert Product(a, d[0]) == Product(b, d[0] * d[1]);
    assert Product(b, d[0] * d[1]) == Product([], d[0] * d[1] * d[2]);
  }

  lemma FourFactors(d: seq<nat>)
    requires |d| == 4
    ensures Product(d, 1) == d[0] * d[1] * d[2] * d[3]
  {
    var a, b, c := d[1..], d[2..], d[3..];
    assert a[1..] == b && b[1..] == c && c[1..] == [];
    assert Product(d, 1) == Product(a, d[0]);
    assert Product(a, d[0]) == Product(b, d[0] * d[1]);
    assert Product(b, d[0] * d[1]) == Product(c, d[0] * d[1] * d[2]);
    assert Product(c, d[0] * d[1] * d[2]) == Product([], d[0] * d[1] * d[2] * d[3]);
  }

  /** What a header that passes the checks says of the tensor's size. */
  lemma HeaderSize(name: string, dims: seq<nat>, raw: nat, offset: nat)
    requires |dims| <= 4 && MakeInfo(name, dims, raw, offset).Ok?
    ensures SizeIsElements(MakeInfo(name, dims, raw, offset).value)
  {
    var d, n := DtypeOf(raw), Product(dims, 1);
    ElementsAreVolume(dims);
    assert n == n / BlockElems(d) * BlockElems(d);
    hide Product, Elements, DimsFit;
  }

  /** Permuting the dimensions of a tensor leaves its size unchanged. */
  lemma SizeOfPermutation(name: string, dims: seq<nat>, other: seq<nat>, raw: nat, offset: nat)
    requires multiset(dims) == multiset(other)
    requires MakeInfo(name, dims, raw, offset).Ok? && MakeInfo(name, other, raw, offset).Ok?
    ensures MakeInfo(name, dims, raw, offset).value.byteLen == MakeInfo(name, other, raw, offset).value.byteLen
  {
    VolumeOfPermutation(dims, other);
    ProductIsVolume(dims, 1);
    ProductIsVolume(other, 1);
    hide Product, DimsFit, Volume;
  }

  function ReadDims(bs: Bytes, n: nat, acc: seq<nat>): (r: Read<seq<nat>>)
    ensures r.Got? ==> |r.rest| <= |bs|
    decreases n
  {
    if n == 0 then Got(acc, bs)
    else
      match ReadUint(bs, 8)
      case Fail(e) => Fail(e)
      case Got(d, rest) => ReadDims(rest, n - 1, acc + [d])
  }

  /** The checks on a tensor's header once it has been read. */
  function MakeInfo(name: string, dims: seq<nat>, raw: nat, offset: nat): Result<TensorInfo> {
    if !Supported(raw) then Err(UnsupportedTensorType(name, raw))
    else if !DimsFit(dims, 1) then Err(DimOverflow(name))
    else
      var elems := Product(dims, 1);
      if !WholeBlocks(DtypeOf(raw), elems) then Err(BadBlockCount(name, elems))
      else Ok(TensorInfo(name, dims, DtypeOf(raw), offset, ByteLen(DtypeOf(raw), elems)))
  }

  function ReadTail(bs: Bytes, name: string, dims: seq<nat>): (r: Read<TensorInfo>)
    ensures r.Got? ==> |r.rest| <= |bs|
  {
    match ReadUint(bs, 4)
    case Fail(e) => Fail(e)
    case Got(raw, rest) =>
      match ReadUint(rest, 8)
      case Fail(e) => Fail(e)
      case Got(offset, after) =>
        match MakeInfo(name, dims, raw, offset)
        case Err(e) => Fail(e)
        case Ok(info) => Got(info, after)
  }

  /** `read_tensor_info`. */
  function ReadInfo(bs: Bytes): (r: Read<TensorInfo>)
    ensures r.Got? ==> |r.rest| < |bs|
  {
    match ReadText(bs)
    case Fail(e) => Fail(e)
    case Got(name, rest) =>
      match ReadUint(rest, 4)
      case Fail(e) => Fail(e)
      case Got(n, body) =>
        if n > MAX_DIMS then Fail(TooManyDims(name, n))
        else
          match ReadDims(body, n, [])
          case Fail(e) => Fail(e)
          case Got(dims, tail) => ReadTail(tail, name, dims)
  }

  lemma {:induction false} DimsRead(bs: Bytes, n: nat, acc: seq<nat>)
    requires ReadDims(bs, n, acc).Got?
    ensures |ReadDims(bs, n, acc).value| == |acc| + n
    decreases n
  {
    if n > 0 {
      var d := ReadUint(bs, 8);
      DimsRead(d.rest, n - 1, acc + [d.value]);
    }
  }

  lemma InfoSize(bs: Bytes)
    requires ReadInfo(bs).Got?
    ensures SizeIsElements(ReadInfo(bs).value)
  {
    hide MakeInfo, ReadText, ReadUint, ReadDims, SizeIsElements;
    var name := ReadText(bs);
    var n := ReadUint(name.rest, 4);
    var dims := ReadDims(n.rest, n.value, []);
    DimsRead(n.rest, n.value, []);
    var raw := ReadUint(dims.rest, 4);
    HeaderSize(name.value, dims.value, raw.value, ReadUint(raw.rest, 8).value);
  }

  predicate HasKey(kvs: Kvs, key: string) {
    exists i | 0 <= i < |kvs| :: kvs[i].0 == key
  }

  predicate HasName(ts: seq<TensorInfo>, name: string) {
    exists i | 0 <= i < |ts| :: ts[i].name == name
  }

  function ReadKv(bs: Bytes): (r: Read<(string, MetaValue)>)
    ensures r.Got? ==> |r.rest| < |bs|
  {
    match ReadText(bs)
    case Fail(e) => Fail(e)
    case Got(key, rest) =>
      match ReadUint(rest, 4)
      case Fail(e) => Fail(e)
      case Got(ty, body) =>
        match ReadValue(body, ty, key)
        case Fail(e) => Fail(e)
        case Got(v, after) => Got((key, v), after)
  }

  function ReadKvs(bs: Bytes, count: nat, acc: Kvs): (r: Read<Kvs>)
    ensures r.Got? ==> |r.rest| <= |bs|
    decreases count
  {
    if count == 0 then Got(acc, bs)
    else
      match ReadKv(bs)
      case Fail(e) => Fail(e)
      case Got(kv, rest) => if HasKey(acc, kv.0) then Fail(DuplicateKey(kv.0)) else ReadKvs(rest, count - 1, acc + [kv])
  }

  function ReadInfos(bs: Bytes, count: nat, acc: seq<TensorInfo>): (r: Read<seq<TensorInfo>>)
    ensures r.Got? ==> |r.rest| <= |bs|
    decreases count
  {
    if count == 0 then Got(acc, bs)
    else
      match ReadInfo(bs)
      case Fail(e) => Fail(e)
      case Got(t, rest) => if HasName(acc, t.name) then Fail(DuplicateTensor(t.name)) else ReadInfos(rest, count - 1, acc + [t])
  }

  // ------------------------------------------------------------ the file

  predicate IsPowerOfTwo(a: nat) {
    a == 1 || (a > 1 && a % 2 == 0 && IsPowerOfTwo(a / 2))
  }

  function PowerOfTwo(k: nat): (p: nat)
    ensures p > 0
  {
    if k == 0 then 1 else 2 * PowerOfTwo(k - 1)
  }

  lemma {:induction false} PowerIsPower(k: nat)
    ensures IsPowerOfTwo(PowerOfTwo(k))
  {
    if k > 0 {
      PowerIsPower(k - 1);
    }
  }

  lemma {:induction false} Exponent(a: nat) returns (k: nat)
    requires IsPowerOfTwo(a)
    ensures a == PowerOfTwo(k)
  {
    if a == 1 {
      k := 0;
    } else {
      k := Exponent(a / 2);
      k := k + 1;
    }
  }

  lemma PowerIff(a: nat)
    ensures IsPowerOfTwo(a) <==> exists k :: a == PowerOfTwo(k)
  {
    if IsPowerOfTwo(a) {
      var k := Exponent(a);
    }
    if k :| a == PowerOfTwo(k) {
      PowerIsPower(k);
    }
    hide IsPowerOfTwo;
  }

  /** The alignments taken: without the key 32, with it any unsigned integer that is a power of two. */
  lemma AlignmentIs(kvs: Kvs, a: nat)
    ensures AlignmentOf(kvs) == Ok(a) <==>
      var i := KeyIndex(kvs, "general.alignment");
      if i == |kvs| then a == 32
      else
        && (exists k :: a == PowerOfTwo(k))
        && kvs[i].1 in {Scalar(U8, a), Scalar(U16, a), Scalar(U32, a), Scalar(U64K, a)}
  {
    PowerIff(a);
    hide IsPowerOfTwo, PowerOfTwo, KeyIndex;
  }

  function KeyIndex(kvs: Kvs, key: string): (i: nat)
    ensures i <= |kvs| && (i < |kvs| ==> kvs[i].0 == key)
    ensures forall j | 0 <= j < i :: kvs[j].0 != key
  {
    if kvs == [] || kvs[0].0 == key then 0 else 1 + KeyIndex(kvs[1..], key)
  }

  /** `general.alignment`: any unsigned integer that is a power of two; 32 if absent. */
  function AlignmentOf(kvs: Kvs): (r: Result<nat>)
    ensures r.Ok? ==> r.value > 0
  {
    var i := KeyIndex(kvs, "general.alignment");
    if i == |kvs| then Ok(DEFAULT_ALIGNMENT)
    else
      match kvs[i].1
      case Scalar(k, bits) =>
        if k !in {U8, U16, U32, U64K} then Err(WrongAlignmentType)
        else if !IsPowerOfTwo(bits) then Err(BadAlignment(bits)) else Ok(bits)
      case _ => Err(WrongAlignmentType)
  }

  /** The next multiple of `a` from `p` on. */
  function AlignUp(p: nat, a: nat): nat
    requires a > 0
  {
    (p + a - 1) / a * a
  }

  lemma AlignUpIs(p: nat, a: nat)
    requires a > 0
    ensures p <= AlignUp(p, a) < p + a && AlignUp(p, a) % a == 0
  {
    var x := p + a - 1;
    assert x == x / a * a + x % a;
    MultipleHasNoRemainder(x / a, a);
  }

  predicate TensorOk(t: TensorInfo, a: nat, dataLen: nat)
    requires a > 0
  {
    t.offset % a == 0 && t.offset + t.byteLen < U64 && t.offset + t.byteLen <= dataLen
  }

  /** The first tensor refused, as the error it gives. */
  function CheckTensors(ts: seq<TensorInfo>, a: nat, dataLen: nat): (r: Result<()>)
    requires a > 0
    ensures r.Ok? <==> forall i | 0 <= i < |ts| :: TensorOk(ts[i], a, dataLen)
  {
    if ts == [] then Ok(())
    else if ts[0].offset % a != 0 then Err(MisalignedTensor(ts[0].name))
    else if !TensorOk(ts[0], a, dataLen) then Err(TensorOutOfBounds(ts[0].name))
    else CheckTensors(ts[1..], a, dataLen)
  }

  function Indexed(ts: seq<TensorInfo>): map<string, nat> {
    if ts == [] then map[] else Indexed(ts[..|ts| - 1])[ts[|ts| - 1].name := |ts| - 1]
  }

  function Min(a: nat, b: nat): nat {
    if a < b then a else b
  }

  function Assemble(bytes: Bytes, pos: nat, kvs: Kvs, a: nat, ts: seq<TensorInfo>): Result<Gguf>
    requires a > 0
  {
    if pos + (a - 1) >= U64 then Err(BadAlignment(a))
    else
      var start := AlignUp(pos, a);
      if start > |bytes| && ts != [] then Err(Truncated)
      else
        var from := Min(start, |bytes|);
        match CheckTensors(ts, a, |bytes| - from)
        case Err(e) => Err(e)
        case Ok(_) => Ok(Gguf(a, kvs, ts, Indexed(ts), from, bytes[from..]))
  }

  /** Magic, version, tensor count, metadata count. */
  function ReadHeader(bs: Bytes): (r: Read<(nat, nat)>)
    ensures r.Got? ==> |r.rest| <= |bs|
  {
    match ReadUint(bs, 4)
    case Fail(e) => Fail(e)
    case Got(magic, r1) =>
      if magic != MAGIC then Fail(BadMagic(magic))
      else
        match ReadUint(r1, 4)
        case Fail(e) => Fail(e)
        case Got(version, r2) =>
          if version != VERSION then Fail(UnsupportedVersion(version))
          else
            match ReadUint(r2, 8)
            case Fail(e) => Fail(e)
            case Got(tensors, r3) =>
              match ReadUint(r3, 8)
              case Fail(e) => Fail(e)
              case Got(kvs, r4) => Got((tensors, kvs), r4)
  }

  /** From the end of the metadata on: alignment, tensor table, data section. */
  function ParseTensors(bytes: Bytes, bs: Bytes, count: nat, kvs: Kvs): Result<Gguf>
    requires |bs| <= |bytes|
  {
    match AlignmentOf(kvs)
    case Err(e) => Err(e)
    case Ok(a) =>
      match ReadInfos(bs, count, [])
      case Fail(e) => Err(e)
      case Got(ts, rest) => Assemble(bytes, |bytes| - |rest|, kvs, a, ts)
  }

  /** `Gguf::parse`. */
  function Parse(bytes: Bytes): Result<Gguf> {
    match ReadHeader(bytes)
    case Fail(e) => Err(e)
    case Got(counts, r1) =>
      match ReadKvs(r1, counts.1, [])
      case Fail(e) => Err(e)
      case Got(kvs, r2) => ParseTensors(bytes, r2, counts.0, kvs)
  }

  // -------------------------------------------------------------- accepted

  predicate DistinctNames(ts: seq<TensorInfo>) {
    forall i, j | 0 <= i < j < |ts| :: ts[i].name != ts[j].name
  }

  /** The index names every tensor, and only tensors. */
  predicate IndexOk(g: Gguf) {
    && (forall i | 0 <= i < |g.tensors| :: g.tensors[i].name in g.index && g.index[g.tensors[i].name] == i)
    && (forall n | n in g.index :: g.index[n] < |g.tensors| && g.tensors[g.index[n]].name == n)
  }

  /** What `data_of` and `tensor_data` rest on. */
  predicate Accepted(g: Gguf) {
    && g.alignment > 0 && DistinctNames(g.tensors) && IndexOk(g)
    && (forall i, j | 0 <= i < j < |g.kvs| :: g.kvs[i].0 != g.kvs[j].0)
    && (forall i | 0 <= i < |g.tensors| :: SizeIsElements(g.tensors[i]))
    && forall i | 0 <= i < |g.tensors| :: TensorOk(g.tensors[i], g.alignment, |g.data|)
  }

  lemma {:induction false} KvsAreDistinct(bs: Bytes, count: nat, acc: Kvs)
    requires (forall i, j | 0 <= i < j < |acc| :: acc[i].0 != acc[j].0) && ReadKvs(bs, count, acc).Got?
    ensures var r := ReadKvs(bs, count, acc).value; |r| == |acc| + count && forall i, j | 0 <= i < j < |r| :: r[i].0 != r[j].0
    decreases count
  {
    hide ReadKv;
    if count > 0 {
      var r := ReadKv(bs);
      KvsAreDistinct(r.rest, count - 1, acc + [r.value]);
    }
  }

  lemma {:induction false} InfosAreSized(bs: Bytes, count: nat, acc: seq<TensorInfo>)
    requires (forall i | 0 <= i < |acc| :: SizeIsElements(acc[i])) && ReadInfos(bs, count, acc).Got?
    ensures var r := ReadInfos(bs, count, acc).value; forall i | 0 <= i < |r| :: SizeIsElements(r[i])
    decreases count
  {
    hide ReadInfo, SizeIsElements;
    if count > 0 {
      var r := ReadInfo(bs);
      InfoSize(bs);
      InfosAreSized(r.rest, count - 1, acc + [r.value]);
    }
  }

  /** An accepted file starts with the four letters and version 3. */
  lemma FirstBytes(bs: Bytes)
    requires ReadHeader(bs).Got?
    ensures |bs| >= 24 && bs[..8] == [0x47, 0x47, 0x55, 0x46, 3, 0, 0, 0]
  {
    var r1 := ReadUint(bs, 4).rest;
    FourBytes(bs[..4], 0x47, 0x47, 0x55, 0x46);
    FourBytes(r1[..4], 3, 0, 0, 0);
    assert bs[..8] == bs[..4] + r1[..4];
  }

  lemma FourBytes(bs: Bytes, a: byte, b: byte, c: byte, d: byte)
    requires |bs| == 4 && FromLe(bs) == a as nat + 256 * (b as nat + 256 * (c as nat + 256 * (d as nat)))
    ensures bs == [a, b, c, d]
  {
    var t, u, v := bs[1..], bs[2..], bs[3..];
    assert t[1..] == u && u[1..] == v && v[1..] == [];
    FirstByte(bs, a, b as nat + 256 * (c as nat + 256 * (d as nat)));
    FirstByte(t, b, c as nat + 256 * (d as nat));
    FirstByte(u, c, d as nat);
    FirstByte(v, d, 0);
    hide FromLe;
  }

  lemma FirstByte(bs: Bytes, a: byte, rest: nat)
    requires bs != [] && FromLe(bs) == a as nat + 256 * rest
    ensures bs[0] == a && FromLe(bs[1..]) == rest
  {
    assert FromLe(bs) == bs[0] as nat + 256 * FromLe(bs[1..]);
  }

  lemma {:induction false} InfosAreDistinct(bs: Bytes, count: nat, acc: seq<TensorInfo>)
    requires DistinctNames(acc) && ReadInfos(bs, count, acc).Got?
    ensures DistinctNames(ReadInfos(bs, count, acc).value) && |ReadInfos(bs, count, acc).value| == |acc| + count
    decreases count
  {
    hide ReadInfo;
    if count > 0 {
      var r := ReadInfo(bs);
      InfosAreDistinct(r.rest, count - 1, acc + [r.value]);
    }
  }

  lemma {:induction false} IndexedIsOk(ts: seq<TensorInfo>)
    requires DistinctNames(ts)
    ensures forall i | 0 <= i < |ts| :: ts[i].name in Indexed(ts) && Indexed(ts)[ts[i].name] == i
    ensures forall n | n in Indexed(ts) :: Indexed(ts)[n] < |ts| && ts[Indexed(ts)[n]].name == n
    decreases |ts|
  {
    if ts != [] {
      IndexedIsOk(ts[..|ts| - 1]);
    }
  }

  /** On every accepted file each tensor is aligned, in range and found by its name. */
  lemma ParseAccepts(bytes: Bytes)
    requires Parse(bytes).Ok?
    ensures var g := Parse(bytes).value;
            Accepted(g) && g.dataStart <= |bytes| && g.data == bytes[g.dataStart..]
    ensures |bytes| >= 24 && bytes[..8] == [0x47, 0x47, 0x55, 0x46, 3, 0, 0, 0]
  {
    hide ReadHeader, ReadKvs, ReadInfos, AlignmentOf, AlignUp, SizeIsElements;
    FirstBytes(bytes);
    var counts, r1 := ReadHeader(bytes).value, ReadHeader(bytes).rest;
    var kvs := ReadKvs(r1, counts.1, []);
    KvsAreDistinct(r1, counts.1, []);
    InfosAreDistinct(kvs.rest, counts.0, []);
    InfosAreSized(kvs.rest, counts.0, []);
    IndexedIsOk(ReadInfos(kvs.rest, counts.0, []).value);
  }

  /** `tensor_data`: total on accepted files. */
  function TensorData(g: Gguf, name: string): (d: Bytes)
    requires Accepted(g) && name in g.index
    ensures |d| == g.tensors[g.index[name]].byteLen
  {
    DataOf(g, g.tensors[g.index[name]])
  }

  function DataOf(g: Gguf, t: TensorInfo): (d: Bytes)
    requires t.offset + t.byteLen <= |g.data|
    ensures |d| == t.byteLen
  {
    g.data[t.offset..][..t.byteLen]
  }

  // --------------------------------------------------------------- writing

  datatype TensorSpec = TensorSpec(name: string, dims: seq<nat>, dtype: Dtype, data: Bytes)

  datatype File = File(kvs: Kvs, tensors: seq<TensorSpec>)

  function Zeros(n: nat): (z: Bytes)
    ensures |z| == n
  {
    seq(n, _ => 0)
  }

  function PadTo(bs: Bytes, a: nat): (r: Bytes)
    requires a > 0
    ensures |r| == AlignUp(|bs|, a) && bs <= r
  {
    AlignUpIs(|bs|, a);
    bs + Zeros(AlignUp(|bs|, a) - |bs|)
  }

  /** The data section: each tensor at the next aligned place. */
  function Pack(ts: seq<TensorSpec>, a: nat): Bytes
    requires a > 0
  {
    if ts == [] then [] else PadTo(Pack(ts[..|ts| - 1], a), a) + ts[|ts| - 1].data
  }

  function OffsetAt(ts: seq<TensorSpec>, a: nat, i: nat): nat
    requires a > 0 && i < |ts|
  {
    AlignUp(|Pack(ts[..i], a)|, a)
  }

  function WriteDims(dims: seq<nat>): Bytes {
    if dims == [] then [] else ToLe(dims[0], 8) + WriteDims(dims[1..])
  }

  function WriteInfo(t: TensorSpec, offset: nat): Bytes {
    WriteText(t.name) + (ToLe(|t.dims|, 4) + (WriteDims(t.dims) + (ToLe(RawOf(t.dtype), 4) + ToLe(offset, 8))))
  }

  function WriteInfos(ts: seq<TensorSpec>, a: nat, i: nat): Bytes
    requires a > 0 && i <= |ts|
    decreases |ts| - i
  {
    if i == |ts| then [] else WriteInfo(ts[i], OffsetAt(ts, a, i)) + WriteInfos(ts, a, i + 1)
  }

  function WriteKv(kv: (string, MetaValue)): Bytes {
    WriteText(kv.0) + (ToLe(TypeCode(kv.1), 4) + WriteValue(kv.1))
  }

  function WriteKvs(kvs: Kvs): Bytes {
    if kvs == [] then [] else WriteKv(kvs[0]) + WriteKvs(kvs[1..])
  }

  function Head(f: File, a: nat): Bytes
    requires a > 0
  {
    ToLe(MAGIC, 4) + (ToLe(VERSION, 4) + (ToLe(|f.tensors|, 8) + (ToLe(|f.kvs|, 8) + (WriteKvs(f.kvs) + WriteInfos(f.tensors, a, 0)))))
  }

  function Build(f: File, a: nat): Bytes
    requires a > 0
  {
    if f.tensors == [] then Head(f, a) else PadTo(Head(f, a), a) + Pack(f.tensors, a)
  }

  predicate SpecOk(t: TensorSpec) {
    && Sized(t.name) && |t.dims| <= MAX_DIMS && (forall i | 0 <= i < |t.dims| :: t.dims[i] < U64)
    && DimsFit(t.dims, 1) && WholeBlocks(t.dtype, Product(t.dims, 1)) && |t.data| == ByteLen(t.dtype, Product(t.dims, 1))
  }

  /** What the format can hold: distinct keys and names, values that fit, well-sized tensors, and a file of 64-bit size. */
  predicate Storable(f: File, a: nat) {
    && AlignmentOf(f.kvs) == Ok(a) && a > 0
    && (forall i, j | 0 <= i < j < |f.kvs| :: f.kvs[i].0 != f.kvs[j].0)
    && (forall i | 0 <= i < |f.kvs| :: Sized(f.kvs[i].0) && FitsValue(f.kvs[i].1))
    && (forall i, j | 0 <= i < j < |f.tensors| :: f.tensors[i].name != f.tensors[j].name)
    && (forall i | 0 <= i < |f.tensors| :: SpecOk(f.tensors[i]))
    && |f.kvs| < U64 && |f.tensors| < U64 && |Build(f, a)| + a <= U64
  }

  function InfoAt(ts: seq<TensorSpec>, a: nat, i: nat): TensorInfo
    requires a > 0 && i < |ts|
  {
    TensorInfo(ts[i].name, ts[i].dims, ts[i].dtype, OffsetAt(ts, a, i), |ts[i].data|)
  }

  function Infos(ts: seq<TensorSpec>, a: nat, n: nat): (r: seq<TensorInfo>)
    requires a > 0 && n <= |ts|
    ensures |r| == n && forall i | 0 <= i < n :: r[i] == InfoAt(ts, a, i)
  {
    if n == 0 then [] else Infos(ts, a, n - 1) + [InfoAt(ts, a, n - 1)]
  }
}
