/**
  The dispatches one layer records, as operations on buffers of rows.

  A buffer keeps whatever an earlier, longer chunk left in it: a kernel run
  over `m` rows overwrites the first `m` and nothing else. Quantisation is the
  identity here, and gemv and gemm compute the same row function.
 */
module Kernels {
  import opened Arithmetic
  import opened Network

  /** The buffers that exist once per layer kind. Global layers have no `vp` of their own. */
  datatype AttnBufs = AttnBufs(qRaw: seq<Row>, q: seq<Row>, kp: seq<Row>, vp: seq<Row>, k: seq<Row>, v: seq<Row>, out: seq<Row>)
  {
    predicate Sized(n: nat) {
      |qRaw| == |q| == |kp| == |vp| == |k| == |v| == |out| == n
    }
  }

  /** The activation buffers shared by all layers. */
  datatype RawBufs = RawBufs(n: nat, x: seq<Row>, xn: seq<Row>, sl: AttnBufs, gl: AttnBufs,
                       o: seq<Row>, on: seq<Row>, x2: seq<Row>, fin: seq<Row>,
                       g: seq<Row>, u: seq<Row>, gu: seq<Row>, f: seq<Row>, fn2: seq<Row>)
  {
    /** Every buffer has `n` rows. */
    predicate Sized() {
      && |x| == |xn| == |o| == |on| == |x2| == |fin| == |g| == |u| == |gu| == |f| == |fn2| == n
      && sl.Sized(n) && gl.Sized(n)
    }

    function Of(k: Kind): AttnBufs {
      if k.Sliding? then sl else gl
    }
  }

  const NO_ROWS := AttnBufs([], [], [], [], [], [], [])

  /** The allocation of one path: rows come and go, lengths never change. */
  type Bufs = b: RawBufs | b.Sized() witness RawBufs(0, [], [], NO_ROWS, NO_ROWS, [], [], [], [], [], [], [], [], [])

  function Put(b: Bufs, k: Kind, a: AttnBufs): (r: Bufs)
    requires a.Sized(b.n)
    ensures r.n == b.n && r.x == b.x && r.Of(k) == a
  {
    if k.Sliding? then b.(sl := a) else b.(gl := a)
  }

  /** Overwrite the attention output of a kind. */
  function PutOut(b: Bufs, k: Kind, out: seq<Row>): (r: Bufs)
    requires |out| == b.n
    ensures r.n == b.n && r.x == b.x && r.Of(k).out == out
  {
    Put(b, k, b.Of(k).(out := out))
  }

  /** One kernel over `m` rows: `dst[t] = f(t, src[t])`, stale rows beyond `m` kept. */
  function RowKernel(m: nat, f: (nat, Row) -> Row, src: seq<Row>, dst: seq<Row>): (r: seq<Row>)
    requires m <= |src| && m <= |dst|
    ensures |r| == |dst|
    ensures forall t | 0 <= t < m :: r[t] == f(t, src[t])
    ensures r[m..] == dst[m..]
  {
    seq(m, t requires 0 <= t < m => f(t, src[t])) + dst[m..]
  }

  /** A kernel with two inputs. */
  function RowKernel2(m: nat, f: (Row, Row) -> Row, a: seq<Row>, b: seq<Row>, dst: seq<Row>): (r: seq<Row>)
    requires m <= |a| && m <= |b| && m <= |dst|
    ensures |r| == |dst|
    ensures forall t | 0 <= t < m :: r[t] == f(a[t], b[t])
    ensures r[m..] == dst[m..]
  {
    seq(m, t requires 0 <= t < m => f(a[t], b[t])) + dst[m..]
  }

  // -------------------------------------------- fused versus split passes

  lemma {:induction false} MapHeadsLength(ar: Arith, op: HeadOp, row: Row, n: nat, hd: nat)
    ensures |MapHeads(ar, op, row, n, hd)| == n * hd
    decreases n
  {
    if n > 0 {
      MapHeadsLength(ar, op, row, n - 1, hd);
      assert n * hd == (n - 1) * hd + hd;
    }
  }

  /** Head `h` of the mapped row is `op` of head `h`. */
  lemma {:induction false} HeadOfMapHeads(ar: Arith, op: HeadOp, row: Row, n: nat, hd: nat, h: nat)
    requires h < n
    ensures HeadOf(MapHeads(ar, op, row, n, hd), h, hd) == OnHead(ar, op, HeadOf(row, h, hd))
    decreases n
  {
    hide OnHead, HeadOf;
    var pre, all := MapHeads(ar, op, row, n - 1, hd), MapHeads(ar, op, row, n, hd);
    var last := OnHead(ar, op, HeadOf(row, n - 1, hd));
    MapHeadsLength(ar, op, row, n - 1, hd);
    if h == n - 1 {
      HeadOfAppended(pre, last, h, hd);
    } else {
      HeadOfMapHeads(ar, op, row, n - 1, hd, h);
      HeadFits(h, n - 1, hd);
      HeadOfPrefix(pre, last, h, hd);
    }
  }

  lemma HeadOfAppended(pre: Row, last: Row, h: nat, hd: nat)
    requires |pre| == h * hd && |last| == hd
    ensures HeadOf(pre + last, h, hd) == last
  {
    var a := HeadOf(pre + last, h, hd);
    forall j | 0 <= j < hd
      ensures a[j] == last[j]
    {
      assert a[j] == At(pre + last, |pre| + j);
    }
  }

  lemma HeadOfPrefix(pre: Row, last: Row, h: nat, hd: nat)
    requires h * hd + hd <= |pre|
    ensures HeadOf(pre + last, h, hd) == HeadOf(pre, h, hd)
  {
    var a, b := HeadOf(pre + last, h, hd), HeadOf(pre, h, hd);
    forall j | 0 <= j < hd
      ensures a[j] == b[j]
    {
      var i := h * hd + j;
      assert a[j] == At(pre + last, i) && b[j] == At(pre, i);
    }
  }

  lemma HeadFits(h: nat, n: nat, hd: nat)
    requires h < n
    ensures h * hd + hd <= n * hd
  {
    assert (h + 1) * hd == h * hd + hd;
    Times(h + 1, n, hd);
  }

  /** Normalising all heads and then rotating all heads is doing both head by head. */
  lemma {:induction false} SplitPasses(ar: Arith, k: Kind, pos: nat, row: Row, w: Option<Row>, n: nat, n2: nat, hd: nat)
    requires n2 <= n
    ensures MapHeads(ar, Rope(k, pos), MapHeads(ar, Norm(w), row, n, hd), n2, hd) == MapHeads(ar, NormThenRope(w, k, pos), row, n2, hd)
    decreases n2
  {
    hide RopeHead, NormRow, HeadOf;
    if n2 > 0 {
      SplitPasses(ar, k, pos, row, w, n, n2 - 1, hd);
      HeadOfMapHeads(ar, Norm(w), row, n, hd, n2 - 1);
    }
  }

  // -------------------------------------------------- one layer's phases

  /** From the stream to q, k, v for `m` rows; row `t` is rotated by position `cs[t]`. */
  method Project(net: Net, ly: Layer, m: nat, cs: seq<nat>, b0: Bufs) returns (b: Bufs)
    requires m <= b0.n && m <= |cs|
    requires ly.wv.Some? == ly.kind.Sliding?
    ensures b.n == b0.n && b.x == b0.x
    ensures forall t | 0 <= t < m :: b.Of(ly.kind).q[t] == QueryOf(net, ly, cs[t], b0.x[t])
    ensures forall t | 0 <= t < m :: b.Of(ly.kind).k[t] == KeyOf(net, ly, cs[t], b0.x[t])
    ensures forall t | 0 <= t < m :: b.Of(ly.kind).v[t] == ValueOf(net, ly, b0.x[t])
  {
    var ar, geo := net.ar, net.Geo(ly.kind);
    var xn := RowKernel(m, (t, r) => NormRow(ar, r, Some(ly.attnNorm)), b0.x, b0.xn);
    var a := b0.Of(ly.kind);
    a := a.(qRaw := RowKernel(m, (t, r) => MatVec(ar, ly.wq, r), xn, a.qRaw));
    a := a.(kp := RowKernel(m, (t, r) => MatVec(ar, ly.wk, r), xn, a.kp));
    if ly.wv.Some? {
      a := a.(vp := RowKernel(m, (t, r) => MatVec(ar, ly.wv.value, r), xn, a.vp));
    }
    a := a.(q := RowKernel(m, (t, r) => MapHeads(ar, Norm(Some(ly.qNorm)), r, net.qHeads, geo.headDim), a.qRaw, a.q));
    a := a.(k := RowKernel(m, (t, r) => MapHeads(ar, Norm(Some(ly.kNorm)), r, geo.kvHeads, geo.headDim), a.kp, a.k));
    a := a.(v := RowKernel(m, (t, r) => MapHeads(ar, Norm(None), r, geo.kvHeads, geo.headDim), if ly.wv.Some? then a.vp else a.kp, a.v));
    a := RotateRows(net, ly, m, cs, a);
    b := Put(b0.(xn := xn), ly.kind, a);
    forall t | 0 <= t < m
      ensures b.Of(ly.kind).q[t] == QueryOf(net, ly, cs[t], b0.x[t]) && b.Of(ly.kind).k[t] == KeyOf(net, ly, cs[t], b0.x[t])
    {
      var row := NormRow(ar, b0.x[t], Some(ly.attnNorm));
      SplitPasses(ar, ly.kind, cs[t], MatVec(ar, ly.wq, row), Some(ly.qNorm), net.qHeads, net.qHeads, geo.headDim);
      SplitPasses(ar, ly.kind, cs[t], MatVec(ar, ly.wk, row), Some(ly.kNorm), geo.kvHeads, geo.kvHeads, geo.headDim);
    }
  }

  /** The two in-place rope dispatches. */
  method RotateRows(net: Net, ly: Layer, m: nat, cs: seq<nat>, a0: AttnBufs) returns (a: AttnBufs)
    requires m <= |a0.q| && m <= |a0.k| && m <= |cs|
    ensures |a.q| == |a0.q| && |a.k| == |a0.k| && a == a0.(q := a.q, k := a.k)
    ensures forall t | 0 <= t < m :: a.q[t] == MapHeads(net.ar, Rope(ly.kind, cs[t]), a0.q[t], net.qHeads, net.Geo(ly.kind).headDim)
    ensures forall t | 0 <= t < m :: a.k[t] == MapHeads(net.ar, Rope(ly.kind, cs[t]), a0.k[t], net.Geo(ly.kind).kvHeads, net.Geo(ly.kind).headDim)
  {
    var geo := net.Geo(ly.kind);
    a := a0.(q := RowKernel(m, (t: nat, r: Row) => MapHeads(net.ar, Rope(ly.kind, if t < |cs| then cs[t] else 0), r, net.qHeads, geo.headDim), a0.q, a0.q));
    a := a.(k := RowKernel(m, (t: nat, r: Row) => MapHeads(net.ar, Rope(ly.kind, if t < |cs| then cs[t] else 0), r, geo.kvHeads, geo.headDim), a0.k, a0.k));
  }

  /** From the attention output back to the stream. */
  method Finish(net: Net, ly: Layer, m: nat, b0: Bufs) returns (b: Bufs)
    requires m <= b0.n
    ensures b.n == b0.n
    ensures forall t | 0 <= t < m :: b.x[t] == AfterAttention(net, ly, b0.x[t], b0.Of(ly.kind).out[t])
  {
    var ar := net.ar;
    b := b0.(o := RowKernel(m, (t, r) => MatVec(ar, ly.wo, r), b0.Of(ly.kind).out, b0.o));
    b := b.(on := RowKernel(m, (t, r) => NormRow(ar, r, Some(ly.postAttnNorm)), b.o, b.on));
    b := b.(x2 := RowKernel2(m, (x, y) => AddRow(ar, x, y), b.x, b.on, b.x2));
    b := FfnRows(net, ly, m, b);
  }

  method FfnRows(net: Net, ly: Layer, m: nat, b0: Bufs) returns (b: Bufs)
    requires m <= b0.n
    ensures b.n == b0.n
    ensures forall t | 0 <= t < m :: b.x[t] == FeedForward(net, ly, b0.x2[t])
  {
    var ar := net.ar;
    b := b0.(fin := RowKernel(m, (t, r) => NormRow(ar, r, Some(ly.ffnNorm)), b0.x2, b0.fin));
    b := b.(g := RowKernel(m, (t, r) => MatVec(ar, ly.wg, r), b.fin, b.g));
    b := b.(u := RowKernel(m, (t, r) => MatVec(ar, ly.wu, r), b.fin, b.u));
    b := b.(gu := RowKernel2(m, (g, u) => GegluRow(ar, g, u), b.g, b.u, b.gu));
    b := b.(f := RowKernel(m, (t, r) => MatVec(ar, ly.wd, r), b.gu, b.f));
    b := b.(fn2 := RowKernel(m, (t, r) => NormRow(ar, r, Some(ly.postFfwNorm)), b.f, b.fn2));
    b := b.(x := RowKernel2(m, (h, f) => ScaleRow(ar, AddRow(ar, h, f), ly.scale), b.x2, b.fn2, b.x));
  }
}
