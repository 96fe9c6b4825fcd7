/** Writing a GGUF file and parsing it back. */
module GgufRoundTrips {
  import opened GgufValues
  import opened Ggufs

  // -------------------------------------------------------------- metadata

  lemma TypeCodeFits(v: MetaValue)
    ensures TypeCode(v) < Pow256(4)
  {
    Powers();
  }

  lemma KvBack(kv: (string, MetaValue), rest: Bytes)
    requires Sized(kv.0) && FitsValue(kv.1)
    ensures ReadKv(WriteKv(kv) + rest) == Got(kv, rest)
  {
    hide ReadText, WriteText, ReadUint, ReadValue, WriteValue, ToLe, Sized, FitsValue, TypeCode;
    var code, value := ToLe(TypeCode(kv.1), 4), WriteValue(kv.1);
    assert WriteKv(kv) + rest == WriteText(kv.0) + (code + (value + rest));
    TextBack(kv.0, code + (value + rest));
    TypeCodeFits(kv.1);
    UintBack(TypeCode(kv.1), 4, value + rest);
    ValueBack(kv.1, kv.0, rest);
  }

  predicate KvsFit(kvs: Kvs) {
    && (forall i, j | 0 <= i < j < |kvs| :: kvs[i].0 != kvs[j].0)
    && (forall i | 0 <= i < |kvs| :: Sized(kvs[i].0) && FitsValue(kvs[i].1))
  }

  lemma {:induction false} KvsBack(kvs: Kvs, i: nat, rest: Bytes)
    requires KvsFit(kvs) && i <= |kvs|
    ensures ReadKvs(WriteKvs(kvs[i..]) + rest, |kvs| - i, kvs[..i]) == Got(kvs, rest)
    decreases |kvs| - i
  {
    hide ReadKv, WriteKv, Sized, FitsValue;
    if i == |kvs| {
      assert kvs[..i] == kvs && WriteKvs(kvs[i..]) + rest == rest;
    } else {
      var more := WriteKvs(kvs[i + 1..]) + rest;
      assert kvs[i..][1..] == kvs[i + 1..];
      assert WriteKvs(kvs[i..]) + rest == WriteKv(kvs[i]) + more;
      KvBack(kvs[i], more);
      KvsBack(kvs, i + 1, rest);
      assert kvs[..i] + [kvs[i]] == kvs[..i + 1];
    }
  }

  // ---------------------------------------------------------- tensor table

  lemma {:induction false} DimsBack(dims: seq<nat>, i: nat, rest: Bytes)
    requires i <= |dims| && forall j | 0 <= j < |dims| :: dims[j] < U64
    ensures ReadDims(WriteDims(dims[i..]) + rest, |dims| - i, dims[..i]) == Got(dims, rest)
    decreases |dims| - i
  {
    Powers();
    hide ReadUint, ToLe, Pow256;
    if i == |dims| {
      assert dims[..i] == dims && WriteDims(dims[i..]) + rest == rest;
    } else {
      var more := WriteDims(dims[i + 1..]) + rest;
      assert dims[i..][1..] == dims[i + 1..];
      assert WriteDims(dims[i..]) + rest == ToLe(dims[i], 8) + more;
      UintBack(dims[i], 8, more);
      DimsBack(dims, i + 1, rest);
      assert dims[..i] + [dims[i]] == dims[..i + 1];
    }
  }

  lemma TailBack(t: TensorSpec, offset: nat, rest: Bytes)
    requires SpecOk(t) && offset < U64
    ensures ReadTail(ToLe(RawOf(t.dtype), 4) + (ToLe(offset, 8) + rest), t.name, t.dims) ==
      Got(TensorInfo(t.name, t.dims, t.dtype, offset, |t.data|), rest)
  {
    Powers();
    hide ReadUint, ToLe, Pow256, Product, DimsFit;
    UintBack(RawOf(t.dtype), 4, ToLe(offset, 8) + rest);
    UintBack(offset, 8, rest);
  }

  lemma WriteInfoSplits(t: TensorSpec, offset: nat, rest: Bytes)
    ensures WriteInfo(t, offset) + rest ==
      WriteText(t.name) + (ToLe(|t.dims|, 4) + (WriteDims(t.dims) + (ToLe(RawOf(t.dtype), 4) + (ToLe(offset, 8) + rest))))
  {
    hide WriteText, ToLe, WriteDims, RawOf;
    var a, b, c, d, e := WriteText(t.name), ToLe(|t.dims|, 4), WriteDims(t.dims), ToLe(RawOf(t.dtype), 4), ToLe(offset, 8);
    Regroup(a, b, c, d, e, rest);
  }

  /** The steps of `ReadInfo`, each on what the one before left. */
  lemma InfoReads(x: Bytes, name: string, y: Bytes, n: nat, z: Bytes, dims: seq<nat>, w: Bytes, info: TensorInfo, rest: Bytes)
    requires ReadText(x) == Got(name, y) && ReadUint(y, 4) == Got(n, z) && n <= MAX_DIMS
    requires ReadDims(z, n, []) == Got(dims, w) && ReadTail(w, name, dims) == Got(info, rest)
    ensures ReadInfo(x) == Got(info, rest)
  {
    hide ReadText, ReadUint, ReadDims, ReadTail;
  }

  lemma InfoBack(t: TensorSpec, offset: nat, rest: Bytes)
    requires SpecOk(t) && offset < U64
    ensures ReadInfo(WriteInfo(t, offset) + rest) == Got(TensorInfo(t.name, t.dims, t.dtype, offset, |t.data|), rest)
  {
    Powers();
    assert Sized(t.name) && |t.dims| <= MAX_DIMS && forall j | 0 <= j < |t.dims| :: t.dims[j] < U64;
    assert |t.dims| < Pow256(4);
    hide ReadText, WriteText, ReadUint, ToLe, Pow256, Sized, SpecOk, ReadTail, WriteDims, ReadDims, WriteInfo, ReadInfo;
    WriteInfoSplits(t, offset, rest);
    TailBack(t, offset, rest);
    var tail := ToLe(RawOf(t.dtype), 4) + (ToLe(offset, 8) + rest);
    var z := WriteDims(t.dims) + tail;
    var y := ToLe(|t.dims|, 4) + z;
    assert t.dims[0..] == t.dims && t.dims[..0] == [];
    DimsBack(t.dims, 0, tail);
    UintBack(|t.dims|, 4, z);
    TextBack(t.name, y);
    InfoReads(WriteText(t.name) + y, t.name, y, |t.dims|, z, t.dims, tail, TensorInfo(t.name, t.dims, t.dtype, offset, |t.data|), rest);
  }

  predicate TableFits(ts: seq<TensorSpec>, a: nat)
    requires a > 0
  {
    && (forall i, j | 0 <= i < j < |ts| :: ts[i].name != ts[j].name)
    && (forall i | 0 <= i < |ts| :: SpecOk(ts[i]) && OffsetAt(ts, a, i) < U64)
  }

  lemma {:induction false} InfosBack(ts: seq<TensorSpec>, a: nat, i: nat, rest: Bytes)
    requires a > 0 && TableFits(ts, a) && i <= |ts|
    ensures ReadInfos(WriteInfos(ts, a, i) + rest, |ts| - i, Infos(ts, a, i)) == Got(Infos(ts, a, |ts|), rest)
    decreases |ts| - i
  {
    hide ReadInfo, WriteInfo, SpecOk, OffsetAt;
    if i == |ts| {
      assert WriteInfos(ts, a, i) + rest == rest;
    } else {
      var more := WriteInfos(ts, a, i + 1) + rest;
      assert WriteInfos(ts, a, i) + rest == WriteInfo(ts[i], OffsetAt(ts, a, i)) + more;
      InfoBack(ts[i], OffsetAt(ts, a, i), more);
      InfosBack(ts, a, i + 1, rest);
    }
  }

  // ---------------------------------------------------------- data section

  /** Each tensor's bytes lie at its recorded offset. */
  lemma {:induction false} PackAt(ts: seq<TensorSpec>, a: nat, i: nat)
    requires a > 0 && i < |ts|
    ensures OffsetAt(ts, a, i) % a == 0
    ensures OffsetAt(ts, a, i) + |ts[i].data| <= |Pack(ts, a)|
    ensures Pack(ts, a)[OffsetAt(ts, a, i)..][..|ts[i].data|] == ts[i].data
    decreases |ts|
  {
    var n := |ts| - 1;
    var init := ts[..n];
    var p := PadTo(Pack(init, a), a);
    AlignUpIs(|Pack(init, a)|, a);
    assert Pack(ts, a) == p + ts[n].data;
    if i < n {
      assert init[..i] == ts[..i];
      PackAt(init, a, i);
      hide Pack, PadTo, AlignUp;
      SlicePrefix(Pack(init, a), p, OffsetAt(init, a, i), |ts[i].data|);
      SlicePrefix(p, p + ts[n].data, OffsetAt(init, a, i), |ts[i].data|);
    } else {
      assert (p + ts[n].data)[|p|..] == ts[n].data;
    }
  }

  lemma SlicePrefix(a: Bytes, b: Bytes, i: nat, n: nat)
    requires a <= b && i + n <= |a|
    ensures a[i..][..n] == b[i..][..n]
  {
    assert forall k | 0 <= k < n :: a[i..][..n][k] == a[i + k] == b[i + k] == b[i..][..n][k];
  }

  // -------------------------------------------------------------- the file

  function Body(f: File, a: nat): Bytes
    requires a > 0
  {
    WriteKvs(f.kvs) + WriteInfos(f.tensors, a, 0)
  }

  /** The steps of `ReadHeader`, each on what the one before left. */
  lemma HeaderSteps(v: Bytes, w: Bytes, x: Bytes, y: Bytes, z: Bytes, tensors: nat, kvs: nat)
    requires ReadUint(v, 4) == Got(MAGIC, w) && ReadUint(w, 4) == Got(VERSION, x)
    requires ReadUint(x, 8) == Got(tensors, y) && ReadUint(y, 8) == Got(kvs, z)
    ensures ReadHeader(v) == Got((tensors, kvs), z)
  {
    hide ReadUint;
  }

  lemma HeadSplits(f: File, a: nat, rest: Bytes)
    requires a > 0
    ensures Head(f, a) + rest == ToLe(MAGIC, 4) + (ToLe(VERSION, 4) + (ToLe(|f.tensors|, 8) + (ToLe(|f.kvs|, 8) + (Body(f, a) + rest))))
  {
    var w, x, y, z, b := ToLe(MAGIC, 4), ToLe(VERSION, 4), ToLe(|f.tensors|, 8), ToLe(|f.kvs|, 8), Body(f, a);
    assert Head(f, a) == w + (x + (y + (z + b)));
    hide Head, Body, ToLe;
    Regroup(w, x, y, z, b, rest);
  }

  lemma Regroup(a: Bytes, b: Bytes, c: Bytes, d: Bytes, e: Bytes, rest: Bytes)
    ensures (a + (b + (c + (d + e)))) + rest == a + (b + (c + (d + (e + rest))))
  {
  }

  lemma HeaderReads(f: File, a: nat, rest: Bytes)
    requires a > 0 && |f.tensors| < U64 && |f.kvs| < U64
    ensures ReadHeader(Head(f, a) + rest) == Got((|f.tensors|, |f.kvs|), Body(f, a) + rest)
  {
    Powers();
    hide Head, Body, ToLe, ReadUint, Pow256, ReadHeader;
    HeadSplits(f, a, rest);
    var z := Body(f, a) + rest;
    var y := ToLe(|f.kvs|, 8) + z;
    var x := ToLe(|f.tensors|, 8) + y;
    var w := ToLe(VERSION, 4) + x;
    UintBack(MAGIC, 4, w);
    UintBack(VERSION, 4, x);
    UintBack(|f.tensors|, 8, y);
    UintBack(|f.kvs|, 8, z);
    HeaderSteps(ToLe(MAGIC, 4) + w, w, x, y, z, |f.tensors|, |f.kvs|);
  }

  predicate TensorsOk(ts: seq<TensorSpec>, a: nat)
    requires a > 0
  {
    forall i | 0 <= i < |ts| :: TensorOk(InfoAt(ts, a, i), a, |Pack(ts, a)|)
  }

  lemma PackFits(f: File, a: nat)
    requires a > 0
    ensures |Pack(f.tensors, a)| <= |Build(f, a)| && |Head(f, a)| <= |Build(f, a)|
  {
    hide Head;
    if f.tensors == [] {
      assert Pack([], a) == [];
    } else {
      AlignUpIs(|Head(f, a)|, a);
      hide Pack;
    }
  }

  lemma StorableParts(f: File, a: nat)
    requires Storable(f, a)
    ensures KvsFit(f.kvs) && TableFits(f.tensors, a) && TensorsOk(f.tensors, a)
    ensures |f.kvs| < U64 && |f.tensors| < U64 && AlignmentOf(f.kvs) == Ok(a) && |Head(f, a)| + a <= U64
  {
    PackFits(f, a);
    hide SpecOk, Pack, Head, FitsValue, AlignmentOf, Build;
    forall i | 0 <= i < |f.tensors|
      ensures OffsetAt(f.tensors, a, i) < U64 && TensorOk(InfoAt(f.tensors, a, i), a, |Pack(f.tensors, a)|)
    {
      PackAt(f.tensors, a, i);
    }
  }

  /** What a stored file parses to. */
  function Stored(f: File, a: nat): Gguf
    requires a > 0
  {
    var infos := Infos(f.tensors, a, |f.tensors|);
    if f.tensors == [] then Gguf(a, f.kvs, [], map[], |Head(f, a)|, [])
    else Gguf(a, f.kvs, infos, Indexed(infos), AlignUp(|Head(f, a)|, a), Pack(f.tensors, a))
  }

  /** The tables are read back, with `rest` left over. */
  lemma TablesBack(f: File, a: nat, rest: Bytes)
    requires a > 0 && KvsFit(f.kvs) && TableFits(f.tensors, a) && |f.kvs| < U64 && |f.tensors| < U64
    ensures ReadHeader(Head(f, a) + rest) == Got((|f.tensors|, |f.kvs|), Body(f, a) + rest)
    ensures ReadKvs(Body(f, a) + rest, |f.kvs|, []) == Got(f.kvs, WriteInfos(f.tensors, a, 0) + rest)
    ensures ReadInfos(WriteInfos(f.tensors, a, 0) + rest, |f.tensors|, []) == Got(Infos(f.tensors, a, |f.tensors|), rest)
  {
    hide ReadHeader, Head, ReadKvs, ReadInfos, WriteKvs, WriteInfos, KvsFit, TableFits;
    HeaderReads(f, a, rest);
    var infos := WriteInfos(f.tensors, a, 0);
    assert f.kvs[0..] == f.kvs && f.kvs[..0] == [];
    KvsBack(f.kvs, 0, infos + rest);
    InfosBack(f.tensors, a, 0, rest);
    assert Body(f, a) + rest == WriteKvs(f.kvs) + (infos + rest);
    assert Infos(f.tensors, a, 0) == [];
  }

  lemma InfosAreOk(ts: seq<TensorSpec>, a: nat, dataLen: nat)
    requires a > 0 && TensorsOk(ts, a) && dataLen == |Pack(ts, a)|
    ensures CheckTensors(Infos(ts, a, |ts|), a, dataLen).Ok?
  {
    hide Pack, OffsetAt;
    var infos := Infos(ts, a, |ts|);
    forall i | 0 <= i < |infos|
      ensures TensorOk(infos[i], a, dataLen)
    {
      assert infos[i] == InfoAt(ts, a, i);
    }
  }

  lemma BuildSplits(f: File, a: nat)
    requires a > 0
    ensures f.tensors == [] ==> Build(f, a) == Head(f, a)
    ensures f.tensors != [] ==>
      var start := AlignUp(|Head(f, a)|, a);
      |Head(f, a)| <= start <= |Build(f, a)| && Build(f, a)[start..] == Pack(f.tensors, a)
    ensures Head(f, a) <= Build(f, a)
  {
    hide Head, Pack;
    AlignUpIs(|Head(f, a)|, a);
    if f.tensors != [] {
      var p := PadTo(Head(f, a), a);
      assert (p + Pack(f.tensors, a))[|p|..] == Pack(f.tensors, a);
    }
  }

  lemma AssembleStored(f: File, a: nat)
    requires a > 0 && |Head(f, a)| + a <= U64 && TensorsOk(f.tensors, a)
    ensures Assemble(Build(f, a), |Head(f, a)|, f.kvs, a, Infos(f.tensors, a, |f.tensors|)) == Ok(Stored(f, a))
  {
    hide Head, Pack, TensorsOk, Build, AlignUp, CheckTensors;
    BuildSplits(f, a);
    AlignUpIs(|Head(f, a)|, a);
    InfosAreOk(f.tensors, a, |Pack(f.tensors, a)|);
    if f.tensors == [] {
      NothingToCheck(a);
      assert Build(f, a)[|Head(f, a)|..] == [];
      assert Infos(f.tensors, a, |f.tensors|) == [] && Indexed([]) == map[];
    }
  }

  lemma NothingToCheck(a: nat)
    requires a > 0
    ensures CheckTensors([], a, 0).Ok?
  {
  }

  /** Parsing what was written returns the same values, order, offsets and data. */
  lemma ParseOfBuild(f: File, a: nat)
    requires Storable(f, a)
    ensures Parse(Build(f, a)) == Ok(Stored(f, a))
  {
    hide Head, Build, Body, WriteInfos, ReadHeader, ReadKvs, ReadInfos, Assemble, AlignmentOf, Stored, KvsFit, TableFits, TensorsOk, Infos;
    StorableParts(f, a);
    hide Storable;
    BuildSplits(f, a);
    var rest := Build(f, a)[|Head(f, a)|..];
    assert Build(f, a) == Head(f, a) + rest;
    TablesBack(f, a, rest);
    AssembleStored(f, a);
  }

  /** And each tensor's data slice is the data that was written under its name. */
  lemma DataOfBuild(f: File, a: nat, i: nat)
    requires Storable(f, a) && i < |f.tensors|
    ensures var g := Stored(f, a);
            && Parse(Build(f, a)) == Ok(g) && Accepted(g) && f.tensors[i].name in g.index
            && TensorData(g, f.tensors[i].name) == f.tensors[i].data
  {
    ParseOfBuild(f, a);
    ParseAccepts(Build(f, a));
    PackAt(f.tensors, a, i);
    hide Parse, Build, Pack, Storable, OffsetAt, Indexed;
    var g := Stored(f, a);
    assert g.tensors[i].name == f.tensors[i].name;
  }
}
