/** The bounds-checked cursor and the parse loops, equal to the front-of-the-rest reading. */
module GgufReaders {
  import opened Utf8
  import opened GgufValues
  import opened Ggufs

  function ResultOf<T>(r: Read<T>): Result<T> {
    match r
    case Got(v, _) => Ok(v)
    case Fail(e) => Err(e)
  }

  /** The fixed-width types by their codes, each with its width in bytes. */
  method KindWidth(ty: nat) returns (kind: KindCode, width: nat)
    ensures kind == KindOf(ty) && (kind.Known? ==> width == SizeOf(kind.value))
  {
    kind, width := Other, 0;
    match ty {
      case 0 => kind, width := Known(U8), 1;
      case 1 => kind, width := Known(I8), 1;
      case 2 => kind, width := Known(U16), 2;
      case 3 => kind, width := Known(I16), 2;
      case 4 => kind, width := Known(U32), 4;
      case 5 => kind, width := Known(I32), 4;
      case 6 => kind, width := Known(F32), 4;
      case 10 => kind, width := Known(U64K), 8;
      case 11 => kind, width := Known(I64), 8;
      case 12 => kind, width := Known(F64), 8;
      case _ =>
    }
  }

  /** `vec_from_le`. */
  method VecFromLe(bytes: Bytes, w: nat) returns (bits: seq<nat>)
    requires w > 0
    ensures bits == Chunks(bytes, w)
  {
    bits := [];
    var i := 0;
    while i + w <= |bytes|
      invariant i <= |bytes| && bits + Chunks(bytes[i..], w) == Chunks(bytes, w)
    {
      assert bytes[i..][..w] == bytes[i..i + w] && bytes[i..][w..] == bytes[i + w..];
      bits := bits + [FromLe(bytes[i..i + w])];
      i := i + w;
    }
  }

  /** Bytes to booleans, up to the first that is neither 0 nor 1. */
  method BoolsIn(bytes: Bytes, key: string, ghost rest: Bytes) returns (r: Result<MetaArray>)
    ensures r == ResultOf(BoolsOf(bytes, key, [], rest))
  {
    var bs: seq<bool> := [];
    var i := 0;
    while i < |bytes|
      invariant i <= |bytes| && BoolsOf(bytes, key, [], rest) == BoolsOf(bytes[i..], key, bs, rest)
    {
      if bytes[i] != 0 && bytes[i] != 1 {
        return Err(InvalidBool(key, bytes[i]));
      }
      bs := bs + [bytes[i] == 1];
      i := i + 1;
    }
    r := Ok(Bools(bs));
  }

  /** The tensor types by their ids, each with the elements and the bytes of a block. */
  method TypeBlock(raw: nat) returns (dtype: Dtype, elems: nat, bytes: nat, known: bool)
    ensures known == Supported(raw)
    ensures known ==> dtype == DtypeOf(raw) && elems == BlockElems(dtype) && bytes == BlockBytes(dtype)
  {
    dtype, elems, bytes, known := F32Tensor, 1, 4, true;
    match raw {
      case 0 =>
      case 1 => dtype, elems, bytes := F16Tensor, 1, 2;
      case 2 => dtype, elems, bytes := Q4_0, 32, 18;
      case 8 => dtype, elems, bytes := Q8_0, 32, 34;
      case 14 => dtype, elems, bytes := Q6_K, 256, 210;
      case _ => known := false;
    }
  }

  /** The end of `read_tensor_info`: type, element count, byte length. */
  method CheckInfo(name: string, dims: seq<nat>, raw: nat, offset: nat) returns (r: Result<TensorInfo>)
    ensures r == MakeInfo(name, dims, raw, offset)
  {
    var dtype, blockElems, blockBytes, known := TypeBlock(raw);
    if !known {
      return Err(UnsupportedTensorType(name, raw));
    }
    var elems := 1;
    var i := 0;
    while i < |dims|
      invariant i <= |dims| && DimsFit(dims, 1) == DimsFit(dims[i..], elems)
      invariant Product(dims, 1) == Product(dims[i..], elems)
    {
      if elems * dims[i] >= 0x1_0000_0000_0000_0000 {
        return Err(DimOverflow(name));
      }
      elems := elems * dims[i];
      i := i + 1;
    }
    if elems % blockElems != 0 {
      return Err(BadBlockCount(name, elems));
    }
    var byteLen := elems / blockElems * blockBytes;
    if byteLen >= 0x1_0000_0000_0000_0000 {
      return Err(BadBlockCount(name, elems));
    }
    r := Ok(TensorInfo(name, dims, dtype, offset, byteLen));
  }

  /** `general.alignment`, or 32 where the key is missing. */
  method FindAlignment(kvs: Kvs) returns (r: Result<nat>)
    ensures r == AlignmentOf(kvs)
  {
    hide IsPowerOfTwo;
    var i := 0;
    while i < |kvs| && kvs[i].0 != "general.alignment"
      invariant i <= |kvs| && KeyIndex(kvs, "general.alignment") == i + KeyIndex(kvs[i..], "general.alignment")
    {
      i := i + 1;
    }
    if i == |kvs| {
      return Ok(32);
    }
    match kvs[i].1 {
      case Scalar(k, bits) =>
        if k != U8 && k != U16 && k != U32 && k != U64K {
          return Err(WrongAlignmentType);
        }
        var power := PowerOfTwoTest(bits);
        r := if power then Ok(bits) else Err(BadAlignment(bits));
      case _ => r := Err(WrongAlignmentType);
    }
  }

  method PowerOfTwoTest(a: nat) returns (b: bool)
    ensures b == IsPowerOfTwo(a)
  {
    var x := a;
    while x > 1 && x % 2 == 0
      invariant IsPowerOfTwo(a) == IsPowerOfTwo(x)
    {
      x := x / 2;
    }
    b := x == 1;
  }

  class Cur {
    const buf: Bytes
    var pos: nat

    predicate Valid()
      reads this
    {
      pos <= |buf|
    }

    function Rest(): Bytes
      requires Valid()
      reads this
    {
      buf[pos..]
    }

    constructor (bytes: Bytes)
      ensures Valid() && Rest() == bytes && buf == bytes
    {
      buf, pos := bytes, 0;
    }

    method TakeBytes(n: nat) returns (r: Result<Bytes>)
      requires Valid()
      modifies `pos
      ensures Valid() && r == ResultOf(Take(old(Rest()), n))
      ensures r.Ok? ==> Rest() == Take(old(Rest()), n).rest
    {
      if n > |buf| - pos {
        return Err(Truncated);
      }
      assert buf[pos..][..n] == buf[pos..pos + n] && buf[pos..][n..] == buf[pos + n..];
      r := Ok(buf[pos..pos + n]);
      pos := pos + n;
    }

    method TakeMany(count: nat, size: nat) returns (r: Result<Bytes>)
      requires Valid()
      modifies `pos
      ensures Valid() && r == ResultOf(TakeN(old(Rest()), count, size))
      ensures r.Ok? ==> Rest() == TakeN(old(Rest()), count, size).rest
    {
      if count * size >= 0x1_0000_0000_0000_0000 {
        return Err(Truncated);
      }
      r := TakeBytes(count * size);
    }

    /** `read_u8` to `read_u64`. */
    method NextUint(w: nat) returns (r: Result<nat>)
      requires Valid()
      modifies `pos
      ensures Valid() && r == ResultOf(ReadUint(old(Rest()), w))
      ensures r.Ok? ==> Rest() == ReadUint(old(Rest()), w).rest
    {
      var bytes := TakeBytes(w);
      r := if bytes.Ok? then Ok(FromLe(bytes.value)) else Err(bytes.error);
    }

    /** `read_string`. */
    method NextText() returns (r: Result<string>)
      requires Valid()
      modifies `pos
      ensures Valid() && r == ResultOf(ReadText(old(Rest())))
      ensures r.Ok? ==> Rest() == ReadText(old(Rest())).rest
    {
      var len := NextUint(8);
      if len.Err? {
        return Err(len.error);
      }
      var bytes := TakeBytes(len.value);
      if bytes.Err? {
        return Err(bytes.error);
      }
      match FromUtf8(bytes.value) {
        case Valid(s) => r := Ok(s);
        case Invalid(_, _) => r := Err(InvalidUtf8);
      }
    }

    method NextTexts(count: nat) returns (r: Result<MetaArray>)
      requires Valid()
      modifies `pos
      ensures Valid() && r == ResultOf(ReadTexts(old(Rest()), count, []))
      ensures r.Ok? ==> Rest() == ReadTexts(old(Rest()), count, []).rest
    {
      hide ReadText;
      var texts: seq<string> := [];
      var i := 0;
      while i < count
        invariant i <= count && Valid()
        invariant ReadTexts(old(Rest()), count, []) == ReadTexts(Rest(), count - i, texts)
      {
        var s := NextText();
        if s.Err? {
          return Err(s.error);
        }
        texts := texts + [s.value];
        i := i + 1;
      }
      r := Ok(Texts(texts));
    }

    /** `read_array`. */
    method NextArray(key: string, depth: nat) returns (r: Result<MetaArray>)
      requires Valid()
      modifies `pos
      ensures Valid() && r == ResultOf(ReadArray(old(Rest()), key, depth))
      ensures r.Ok? ==> Rest() == ReadArray(old(Rest()), key, depth).rest
      decreases Room(depth), 0
    {
      hide ReadUint, ReadElements;
      if depth >= 8 {
        return Err(ArrayTooDeep(key));
      }
      var ty := NextUint(4);
      if ty.Err? {
        return Err(ty.error);
      }
      var count := NextUint(8);
      if count.Err? {
        return Err(count.error);
      }
      r := NextElements(key, depth, ty.value, count.value);
    }

    method NextElements(key: string, depth: nat, ty: nat, count: nat) returns (r: Result<MetaArray>)
      requires Valid() && depth < MAX_ARRAY_DEPTH
      modifies `pos
      ensures Valid() && r == ResultOf(ReadElements(old(Rest()), key, depth, ty, count))
      ensures r.Ok? ==> Rest() == ReadElements(old(Rest()), key, depth, ty, count).rest
      decreases Room(depth + 1), 2
    {
      hide TakeN, Chunks, BoolsOf, ReadTexts, ReadArrays;
      var kind, width := KindWidth(ty);
      if kind.Known? {
        var bytes := TakeMany(count, width);
        if bytes.Err? {
          return Err(bytes.error);
        }
        var bits := VecFromLe(bytes.value, width);
        r := Ok(Scalars(kind.value, bits));
      } else if ty == 7 {
        var bytes := TakeMany(count, 1);
        if bytes.Err? {
          return Err(bytes.error);
        }
        r := BoolsIn(bytes.value, key, Rest());
      } else if ty == 8 {
        r := NextTexts(count);
      } else if ty == 9 {
        r := NextArrays(key, depth + 1, count);
      } else {
        r := Err(UnknownValueType(key, ty));
      }
    }

    method NextArrays(key: string, depth: nat, count: nat) returns (r: Result<MetaArray>)
      requires Valid()
      modifies `pos
      ensures Valid() && r == ResultOf(ReadArrays(old(Rest()), key, depth, count, []))
      ensures r.Ok? ==> Rest() == ReadArrays(old(Rest()), key, depth, count, []).rest
      decreases Room(depth), 1
    {
      hide ReadArray;
      var arrays: seq<MetaArray> := [];
      var i := 0;
      while i < count
        invariant i <= count && Valid()
        invariant ReadArrays(old(Rest()), key, depth, count, []) == ReadArrays(Rest(), key, depth, count - i, arrays)
      {
        var a := NextArray(key, depth);
        if a.Err? {
          return Err(a.error);
        }
        arrays := arrays + [a.value];
        i := i + 1;
      }
      r := Ok(Nested(arrays));
    }

    /** `read_value`. */
    method NextValue(ty: nat, key: string) returns (r: Result<MetaValue>)
      requires Valid()
      modifies `pos
      ensures Valid() && r == ResultOf(ReadValue(old(Rest()), ty, key))
      ensures r.Ok? ==> Rest() == ReadValue(old(Rest()), ty, key).rest
    {
      hide ReadUint, ReadText, ReadArray;
      var kind, width := KindWidth(ty);
      if kind.Known? {
        var bits := NextUint(width);
        return if bits.Ok? then Ok(Scalar(kind.value, bits.value)) else Err(bits.error);
      } else if ty == 7 {
        var v := NextUint(1);
        return if v.Err? then Err(v.error) else if v.value == 0 then Ok(Bool(false)) else if v.value == 1 then Ok(Bool(true))
               else Err(InvalidBool(key, v.value));
      } else if ty == 8 {
        var s := NextText();
        return if s.Ok? then Ok(Text(s.value)) else Err(s.error);
      } else if ty == 9 {
        var a := NextArray(key, 0);
        return if a.Ok? then Ok(Array(a.value)) else Err(a.error);
      }
      r := Err(UnknownValueType(key, ty));
    }

    method NextDims(n: nat) returns (r: Result<seq<nat>>)
      requires Valid()
      modifies `pos
      ensures Valid() && r == ResultOf(ReadDims(old(Rest()), n, []))
      ensures r.Ok? ==> Rest() == ReadDims(old(Rest()), n, []).rest
    {
      hide ReadUint;
      var dims: seq<nat> := [];
      var i := 0;
      while i < n
        invariant i <= n && Valid()
        invariant ReadDims(old(Rest()), n, []) == ReadDims(Rest(), n - i, dims)
      {
        var d := NextUint(8);
        if d.Err? {
          return Err(d.error);
        }
        dims := dims + [d.value];
        i := i + 1;
      }
      r := Ok(dims);
    }

    /** `read_tensor_info`. */
    method NextInfo() returns (r: Result<TensorInfo>)
      requires Valid()
      modifies `pos
      ensures Valid() && r == ResultOf(ReadInfo(old(Rest())))
      ensures r.Ok? ==> Rest() == ReadInfo(old(Rest())).rest
    {
      hide ReadText, ReadUint, ReadDims, MakeInfo;
      var name := NextText();
      if name.Err? {
        return Err(name.error);
      }
      var n := NextUint(4);
      if n.Err? {
        return Err(n.error);
      }
      if n.value > 4 {
        return Err(TooManyDims(name.value, n.value));
      }
      var dims := NextDims(n.value);
      if dims.Err? {
        return Err(dims.error);
      }
      var raw := NextUint(4);
      if raw.Err? {
        return Err(raw.error);
      }
      var offset := NextUint(8);
      if offset.Err? {
        return Err(offset.error);
      }
      r := CheckInfo(name.value, dims.value, raw.value, offset.value);
    }

    method NextKvs(count: nat) returns (r: Result<Kvs>)
      requires Valid()
      modifies `pos
      ensures Valid() && r == ResultOf(ReadKvs(old(Rest()), count, []))
      ensures r.Ok? ==> Rest() == ReadKvs(old(Rest()), count, []).rest
    {
      hide ReadText, ReadUint, ReadValue;
      var kvs: Kvs := [];
      var i := 0;
      while i < count
        invariant i <= count && Valid()
        invariant ReadKvs(old(Rest()), count, []) == ReadKvs(Rest(), count - i, kvs)
      {
        var key := NextText();
        if key.Err? {
          return Err(key.error);
        }
        var ty := NextUint(4);
        if ty.Err? {
          return Err(ty.error);
        }
        var v := NextValue(ty.value, key.value);
        if v.Err? {
          return Err(v.error);
        }
        if HasKey(kvs, key.value) {
          return Err(DuplicateKey(key.value));
        }
        kvs := kvs + [(key.value, v.value)];
        i := i + 1;
      }
      r := Ok(kvs);
    }

    /** The tensor-table loop, with the name index built alongside. */
    method NextInfos(count: nat) returns (r: Result<seq<TensorInfo>>, index: map<string, nat>)
      requires Valid()
      modifies `pos
      ensures Valid() && r == ResultOf(ReadInfos(old(Rest()), count, []))
      ensures r.Ok? ==> Rest() == ReadInfos(old(Rest()), count, []).rest && index == Indexed(r.value)
    {
      hide ReadInfo;
      var ts: seq<TensorInfo> := [];
      index := map[];
      var i := 0;
      while i < count
        invariant i <= count && Valid() && |ts| == i
        invariant DistinctNames(ts) && index == Indexed(ts)
        invariant ReadInfos(old(Rest()), count, []) == ReadInfos(Rest(), count - i, ts)
      {
        var t := NextInfo();
        if t.Err? {
          r := Err(t.error);
          return;
        }
        IndexedIsOk(ts);
        if t.value.name in index {
          assert ts[index[t.value.name]].name == t.value.name;
          r := Err(DuplicateTensor(t.value.name));
          return;
        }
        assert !HasName(ts, t.value.name);
        assert (ts + [t.value])[..|ts|] == ts;
        index := index[t.value.name := |ts|];
        ts := ts + [t.value];
        i := i + 1;
      }
      r := Ok(ts);
    }

    method NextHeader() returns (r: Result<(nat, nat)>)
      requires Valid()
      modifies `pos
      ensures Valid() && r == ResultOf(ReadHeader(old(Rest())))
      ensures r.Ok? ==> Rest() == ReadHeader(old(Rest())).rest
    {
      hide ReadUint;
      var magic := NextUint(4);
      if magic.Err? {
        return Err(magic.error);
      }
      if magic.value != 0x4655_4747 {
        return Err(BadMagic(magic.value));
      }
      var version := NextUint(4);
      if version.Err? {
        return Err(version.error);
      }
      if version.value != 3 {
        return Err(UnsupportedVersion(version.value));
      }
      var tensors := NextUint(8);
      if tensors.Err? {
        return Err(tensors.error);
      }
      var kvs := NextUint(8);
      r := if kvs.Ok? then Ok((tensors.value, kvs.value)) else Err(kvs.error);
    }
  }

  /** The checks after the table: each tensor aligned and in range. */
  method ValidateTensors(ts: seq<TensorInfo>, a: nat, dataLen: nat) returns (r: Result<()>)
    requires a > 0
    ensures r == CheckTensors(ts, a, dataLen)
  {
    var i := 0;
    while i < |ts|
      invariant i <= |ts| && CheckTensors(ts, a, dataLen) == CheckTensors(ts[i..], a, dataLen)
    {
      var t := ts[i];
      if t.offset % a != 0 {
        return Err(MisalignedTensor(t.name));
      }
      if t.offset + t.byteLen >= 0x1_0000_0000_0000_0000 || t.offset + t.byteLen > dataLen {
        return Err(TensorOutOfBounds(t.name));
      }
      i := i + 1;
    }
    r := Ok(());
  }

  /** The data section: at the next alignment boundary, to the end of the file. */
  method FinishParse(bytes: Bytes, pos: nat, kvs: Kvs, a: nat, ts: seq<TensorInfo>, index: map<string, nat>) returns (r: Result<Gguf>)
    requires a > 0 && index == Indexed(ts)
    ensures r == Assemble(bytes, pos, kvs, a, ts)
  {
    hide CheckTensors, Indexed;
    if pos + (a - 1) >= 0x1_0000_0000_0000_0000 {
      return Err(BadAlignment(a));
    }
    var start := (pos + (a - 1)) / a * a;
    if start > |bytes| && ts != [] {
      return Err(Truncated);
    }
    var from := if start < |bytes| then start else |bytes|;
    var checked := ValidateTensors(ts, a, |bytes| - from);
    if checked.Err? {
      return Err(checked.error);
    }
    r := Ok(Gguf(a, kvs, ts, index, from, bytes[from..]));
  }

  /** Alignment, tensor table, data section. */
  method ParseTable(cur: Cur, count: nat, kvs: Kvs) returns (r: Result<Gguf>)
    requires cur.Valid()
    modifies cur
    ensures r == ParseTensors(cur.buf, old(cur.Rest()), count, kvs)
  {
    hide ReadInfos, AlignmentOf, Assemble, Indexed;
    var alignment := FindAlignment(kvs);
    if alignment.Err? {
      return Err(alignment.error);
    }
    var ts, index := cur.NextInfos(count);
    if ts.Err? {
      return Err(ts.error);
    }
    r := FinishParse(cur.buf, cur.pos, kvs, alignment.value, ts.value, index);
  }

  /** `Gguf::parse`. */
  method ParseFile(bytes: Bytes) returns (r: Result<Gguf>)
    ensures r == Parse(bytes)
  {
    hide ReadHeader, ReadKvs, ParseTensors;
    var cur := new Cur(bytes);
    var counts := cur.NextHeader();
    if counts.Err? {
      return Err(counts.error);
    }
    r := ParseBody(cur, counts.value.0, counts.value.1);
  }

  /** Metadata, then the rest. */
  method ParseBody(cur: Cur, tensors: nat, count: nat) returns (r: Result<Gguf>)
    requires cur.Valid()
    modifies cur
    ensures r == match ReadKvs(old(cur.Rest()), count, [])
                 case Fail(e) => Err(e)
                 case Got(kvs, rest) => ParseTensors(cur.buf, rest, tensors, kvs)
  {
    hide ReadKvs, ParseTensors;
    var kvs := cur.NextKvs(count);
    if kvs.Err? {
      return Err(kvs.error);
    }
    r := ParseTable(cur, tensors, kvs.value);
  }
}
