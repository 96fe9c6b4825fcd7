/** The network that both forward passes compute, with floating point left opaque. */
module Network {
  // A float is known only by its bit pattern and every arithmetic step is an
  // uninterpreted function held in `Arith`, so an equality of rows is an equality
  // of bits. `Stream` says what the network means position by position; it knows
  // nothing of caches, chunks or rings.

  datatype Float = Float(bits: nat)

  type Row = seq<Float>

  /** A matrix, one (dequantised) weight row per output element. */
  datatype Mat = Mat(rows: seq<Row>)

  datatype Option<+T> = None | Some(value: T)

  datatype Kind = Sliding | Global

  datatype Geometry = Geometry(kvHeads: nat, headDim: nat)

  /** The uninterpreted arithmetic. */
  datatype Arith = Arith(
    dot: (Row, Row) -> Float,                                      // one matmul output
    norm: (Row, Float, Option<Float>) -> Float,                    // row, element, weight
    rope: (Kind, nat, nat, Float, Float) -> (Float, Float),        // position, pair, both halves
    score: (Row, Row) -> Float,                                    // query head against key head
    mix: seq<(Float, Float)> -> Float,                             // softmax over (score, value element)
    add: (Float, Float) -> Float,
    mul: (Float, Float) -> Float,
    gelu: Float -> Float,
    softcap: Float -> Float)

  /** One layer's weights; `wv` is absent on global layers, which reuse the K projection. */
  datatype Layer = Layer(
    kind: Kind,
    attnNorm: Row, wq: Mat, wk: Mat, wv: Option<Mat>, qNorm: Row, kNorm: Row,
    wo: Mat, postAttnNorm: Row,
    ffnNorm: Row, wg: Mat, wu: Mat, wd: Mat, postFfwNorm: Row,
    scale: Float)

  datatype RawNet = RawNet(
    ar: Arith,
    qHeads: nat, sliding: Geometry, global: Geometry, window: nat,
    embd: Mat, embedScale: Float, layers: seq<Layer>, outNorm: Row)
  {
    function Geo(k: Kind): Geometry {
      if k.Sliding? then sliding else global
    }

    function KvDim(k: Kind): nat {
      Geo(k).kvHeads * Geo(k).headDim
    }

    function QDim(k: Kind): nat {
      qHeads * Geo(k).headDim
    }

    /** What `ModelDesc` validates before either model is built. */
    predicate WellFormed() {
      && 0 < window && 0 < |layers|
      && 0 < sliding.headDim && 0 < sliding.kvHeads <= qHeads
      && 0 < global.headDim && 0 < global.kvHeads <= qHeads
      && qHeads % sliding.kvHeads == 0 && qHeads % global.kvHeads == 0
    }

    predicate Shaped() {
      && (forall l | 0 <= l < |layers| :: LayerShapes(layers[l]))
      && (forall r | 0 <= r < |embd.rows| :: |embd.rows[r]| == Hid())
    }

    /** The matrix shapes asserted by `mat`; a sliding layer has its own V projection. */
    predicate LayerShapes(ly: Layer) {
      && |ly.wq.rows| == QDim(ly.kind)
      && |ly.wk.rows| == KvDim(ly.kind)
      && ly.wv.Some? == ly.kind.Sliding?
      && (ly.wv.Some? ==> |ly.wv.value.rows| == KvDim(ly.kind))
      && |ly.wo.rows| == |ly.wd.rows| == Hid()
      && |ly.wg.rows| == |ly.wu.rows|
    }

    /** Hidden width: the length of one embedding row. */
    function Hid(): nat {
      |outNorm|
    }
  }

  /** The smallest network, to witness that shapes can be met. */
  const TINY_ARITH := Arith((a, b) => Float(0), (r, x, w) => x, (k, p, i, a, b) => (a, b), (a, b) => Float(0), s => Float(0),
                            (a, b) => a, (a, b) => a, a => a, a => a)
  const TINY_LAYER := Layer(Global, [], Mat([[]]), Mat([[]]), None, [], [], Mat([]), [], [], Mat([]), Mat([]), Mat([]), [], Float(0))

  /** A network whose shapes were validated at load time. */
  type Net = n: RawNet | n.WellFormed() && n.Shaped()
    witness RawNet(TINY_ARITH, 1, Geometry(1, 1), Geometry(1, 1), 1, Mat([]), Float(0), [TINY_LAYER], [])

  // ---------------------------------------------------------------- rows

  /** Total indexing; out-of-range elements never matter. */
  function At(row: Row, i: nat): Float {
    if i < |row| then row[i] else Float(0)
  }

  function HeadOf(row: Row, h: nat, hd: nat): (r: Row)
    ensures |r| == hd
  {
    seq(hd, j requires 0 <= j < hd => At(row, h * hd + j))
  }

  function NormRow(ar: Arith, row: Row, w: Option<Row>): (r: Row)
    ensures |r| == |row|
  {
    seq(|row|, i requires 0 <= i < |row| => ar.norm(row, row[i], if w.Some? && i < |w.value| then Some(w.value[i]) else None))
  }

  function MatVec(ar: Arith, m: Mat, row: Row): (r: Row)
    ensures |r| == |m.rows|
  {
    seq(|m.rows|, i requires 0 <= i < |m.rows| => ar.dot(m.rows[i], row))
  }

  function AddRow(ar: Arith, a: Row, b: Row): (r: Row)
    ensures |r| == |a|
  {
    seq(|a|, i requires 0 <= i < |a| => ar.add(a[i], At(b, i)))
  }

  function ScaleRow(ar: Arith, a: Row, s: Float): (r: Row)
    ensures |r| == |a|
  {
    seq(|a|, i requires 0 <= i < |a| => ar.mul(a[i], s))
  }

  function GegluRow(ar: Arith, g: Row, u: Row): (r: Row)
    ensures |r| == |g|
  {
    seq(|g|, i requires 0 <= i < |g| => ar.mul(ar.gelu(g[i]), At(u, i)))
  }

  /** Element `j` of one rotated head: pair `i` couples `i` and `i + hd/2`. */
  function RopeElem(ar: Arith, k: Kind, pos: nat, head: Row, j: nat): Float
  {
    var half := |head| / 2;
    if j < half then ar.rope(k, pos, j, At(head, j), At(head, j + half)).0
    else if j < 2 * half then ar.rope(k, pos, j - half, At(head, j - half), At(head, j)).1
    else At(head, j)
  }

  function RopeHead(ar: Arith, k: Kind, pos: nat, head: Row): (r: Row)
    ensures |r| == |head|
  {
    seq(|head|, j requires 0 <= j < |head| => RopeElem(ar, k, pos, head, j))
  }

  /** What is done to each head of a projection. */
  datatype HeadOp =
    | Norm(w: Option<Row>)
    | Rope(k: Kind, pos: nat)
    | NormThenRope(w: Option<Row>, k: Kind, pos: nat)

  function OnHead(ar: Arith, op: HeadOp, head: Row): (r: Row)
    ensures |r| == |head|
  {
    match op
    case Norm(w) => NormRow(ar, head, w)
    case Rope(k, pos) => RopeHead(ar, k, pos, head)
    case NormThenRope(w, k, pos) => RopeHead(ar, k, pos, NormRow(ar, head, w))
  }

  /** Apply `op` to each of the first `n` heads of a row, concatenating the results. */
  function MapHeads(ar: Arith, op: HeadOp, row: Row, n: nat, hd: nat): Row
    decreases n
  {
    if n == 0 then [] else MapHeads(ar, op, row, n - 1, hd) + OnHead(ar, op, HeadOf(row, n - 1, hd))
  }

  // ----------------------------------------------------------- attention

  /** One K/V head's contribution to output element `j`: its (score, value) pairs, in the order read. */
  function Pairs(ar: Arith, qh: Row, kvs: seq<(Row, Row)>, kvh: nat, hd: nat, j: nat): (s: seq<(Float, Float)>)
    ensures |s| == |kvs|
  {
    seq(|kvs|, i requires 0 <= i < |kvs| => (ar.score(qh, HeadOf(kvs[i].0, kvh, hd)), At(kvs[i].1, kvh * hd + j)))
  }

  function AttendHead(ar: Arith, qh: Row, kvs: seq<(Row, Row)>, kvh: nat, hd: nat): (r: Row)
    ensures |r| == hd
  {
    seq(hd, j requires 0 <= j < hd => ar.mix(Pairs(ar, qh, kvs, kvh, hd, j)))
  }

  /** Grouped-query attention over the first `n` query heads: head `h` reads K/V head `h / perKv`. */
  function AttendHeads(ar: Arith, q: Row, kvs: seq<(Row, Row)>, perKv: nat, hd: nat, n: nat): Row
    requires 0 < perKv
    decreases n
  {
    if n == 0 then []
    else AttendHeads(ar, q, kvs, perKv, hd, n - 1) + AttendHead(ar, HeadOf(q, n - 1, hd), kvs, (n - 1) / perKv, hd)
  }

  function PerKv(net: Net, k: Kind): (g: nat)
    ensures 0 < g
  {
    net.qHeads / net.Geo(k).kvHeads
  }

  function AttendRow(net: Net, k: Kind, q: Row, kvs: seq<(Row, Row)>): Row
  {
    AttendHeads(net.ar, q, kvs, PerKv(net, k), net.Geo(k).headDim, net.qHeads)
  }

  // --------------------------------------------------------------- layer

  function EmbedRow(net: Net, tok: nat): Row
  {
    ScaleRow(net.ar, if tok < |net.embd.rows| then net.embd.rows[tok] else [], net.embedScale)
  }

  function QueryOf(net: Net, ly: Layer, pos: nat, x: Row): Row
  {
    var hd := net.Geo(ly.kind).headDim;
    MapHeads(net.ar, NormThenRope(Some(ly.qNorm), ly.kind, pos),
             MatVec(net.ar, ly.wq, NormRow(net.ar, x, Some(ly.attnNorm))), net.qHeads, hd)
  }

  function KeyOf(net: Net, ly: Layer, pos: nat, x: Row): Row
  {
    var geo := net.Geo(ly.kind);
    MapHeads(net.ar, NormThenRope(Some(ly.kNorm), ly.kind, pos),
             MatVec(net.ar, ly.wk, NormRow(net.ar, x, Some(ly.attnNorm))), geo.kvHeads, geo.headDim)
  }

  function ValueOf(net: Net, ly: Layer, x: Row): Row
  {
    var geo := net.Geo(ly.kind);
    MapHeads(net.ar, Norm(None),
             MatVec(net.ar, if ly.wv.Some? then ly.wv.value else ly.wk, NormRow(net.ar, x, Some(ly.attnNorm))),
             geo.kvHeads, geo.headDim)
  }

  /** Everything after attention: output projection, both residuals, the FFN and the layer scale. */
  function AfterAttention(net: Net, ly: Layer, x: Row, attn: Row): Row
  {
    var h := AddRow(net.ar, x, NormRow(net.ar, MatVec(net.ar, ly.wo, attn), Some(ly.postAttnNorm)));
    FeedForward(net, ly, h)
  }

  function FeedForward(net: Net, ly: Layer, h: Row): Row
  {
    var fin := NormRow(net.ar, h, Some(ly.ffnNorm));
    var gu := GegluRow(net.ar, MatVec(net.ar, ly.wg, fin), MatVec(net.ar, ly.wu, fin));
    var f := NormRow(net.ar, MatVec(net.ar, ly.wd, gu), Some(ly.postFfwNorm));
    ScaleRow(net.ar, AddRow(net.ar, h, f), ly.scale)
  }

  function LogitsOf(net: Net, x: Row): Row
  {
    var raw := MatVec(net.ar, net.embd, NormRow(net.ar, x, Some(net.outNorm)));
    seq(|raw|, i requires 0 <= i < |raw| => net.ar.softcap(raw[i]))
  }

  // ----------------------------------------------------- what it computes

  /** First position a query at `p` may see. */
  function Oldest(net: Net, k: Kind, p: nat): (lo: nat)
    ensures lo <= p + 1
  {
    if k.Sliding? && net.window <= p then p + 1 - net.window else 0
  }

  /** The (K, V) rows a layer derives from its input stream, one pair per position. */
  function Kvs(net: Net, ly: Layer, xs: seq<Row>): (s: seq<(Row, Row)>)
    ensures |s| == |xs|
  {
    seq(|xs|, p requires 0 <= p < |xs| => (KeyOf(net, ly, p, xs[p]), ValueOf(net, ly, xs[p])))
  }

  /** Exactly the rows a query at `p` attends to: the window on sliding layers, all on global ones. */
  function Visible(net: Net, k: Kind, kvs: seq<(Row, Row)>, p: nat): seq<(Row, Row)>
    requires p < |kvs|
  {
    kvs[Oldest(net, k, p)..p + 1]
  }

  /** One position through one layer, given what it sees. */
  function BlockRow(net: Net, ly: Layer, p: nat, x: Row, seen: seq<(Row, Row)>): Row
  {
    AfterAttention(net, ly, x, AttendRow(net, ly.kind, QueryOf(net, ly, p, x), seen))
  }

  /** The whole stream through one layer. */
  function LayerStep(net: Net, ly: Layer, xs: seq<Row>): (ys: seq<Row>)
    ensures |ys| == |xs|
  {
    var kvs := Kvs(net, ly, xs);
    seq(|xs|, p requires 0 <= p < |xs| => BlockRow(net, ly, p, xs[p], Visible(net, ly.kind, kvs, p)))
  }

  function Embeds(net: Net, toks: seq<nat>): (xs: seq<Row>)
    ensures |xs| == |toks|
  {
    seq(|toks|, p requires 0 <= p < |toks| => EmbedRow(net, toks[p]))
  }

  /** The residual stream of all of `toks` as it enters layer `l`. */
  function Stream(net: Net, toks: seq<nat>, l: nat): (xs: seq<Row>)
    requires l <= |net.layers|
    ensures |xs| == |toks|
    decreases l
  {
    if l == 0 then Embeds(net, toks) else LayerStep(net, net.layers[l - 1], Stream(net, toks, l - 1))
  }

  /** What layer `l` keeps in its KV cache for `toks`. */
  function LayerKvs(net: Net, toks: seq<nat>, l: nat): (s: seq<(Row, Row)>)
    requires l < |net.layers|
    ensures |s| == |toks|
  {
    Kvs(net, net.layers[l], Stream(net, toks, l))
  }

  /** Logits of the last token of `toks`. */
  function Logits(net: Net, toks: seq<nat>): Row
    requires 0 < |toks|
  {
    LogitsOf(net, Stream(net, toks, |net.layers|)[|toks| - 1])
  }

  // ------------------------------------------------------------ causality

  lemma StepIsCausal(net: Net, ly: Layer, xs: seq<Row>, ys: seq<Row>)
    ensures Kvs(net, ly, xs + ys)[..|xs|] == Kvs(net, ly, xs)
    ensures LayerStep(net, ly, xs + ys)[..|xs|] == LayerStep(net, ly, xs)
  {
    assert Kvs(net, ly, xs + ys)[..|xs|] == Kvs(net, ly, xs);
    var a, b := LayerStep(net, ly, xs + ys), LayerStep(net, ly, xs);
    forall p | 0 <= p < |xs|
      ensures a[p] == b[p]
    {
      assert Visible(net, ly.kind, Kvs(net, ly, xs + ys), p) == Visible(net, ly.kind, Kvs(net, ly, xs), p);
    }
  }

  /** Later tokens change nothing at earlier positions, at any depth. */
  lemma {:induction false} StreamIsCausal(net: Net, a: seq<nat>, b: seq<nat>, l: nat)
    requires l <= |net.layers|
    ensures Stream(net, a + b, l)[..|a|] == Stream(net, a, l)
    decreases l
  {
    if l == 0 {
      assert Embeds(net, a + b)[..|a|] == Embeds(net, a);
    } else {
      StreamIsCausal(net, a, b, l - 1);
      var xs := Stream(net, a + b, l - 1);
      assert xs == xs[..|a|] + xs[|a|..];
      StepIsCausal(net, net.layers[l - 1], xs[..|a|], xs[|a|..]);
    }
  }

  lemma KvsAreCausal(net: Net, a: seq<nat>, b: seq<nat>, l: nat)
    requires l < |net.layers|
    ensures LayerKvs(net, a + b, l)[..|a|] == LayerKvs(net, a, l)
  {
    StreamIsCausal(net, a, b, l);
    var xs := Stream(net, a + b, l);
    assert xs == xs[..|a|] + xs[|a|..];
    StepIsCausal(net, net.layers[l], xs[..|a|], xs[|a|..]);
  }
}
