/** The CPU reference model: one pass over flat vectors, with a full linear KV history and the window as a mask. */
module CpuModels {
  import opened Arithmetic
  import opened Network
  import opened Kernels
  import opened FlatRows

  // -------------------------------------------------------------- matmul

  /** Position of element `(t, r)` in a matrix of row width `w`. */
  function Idx(t: nat, r: nat, w: nat): nat {
    t * w + r
  }

  lemma IdxInRange(t: nat, n: nat, r: nat, w: nat)
    requires t < n && r < w
    ensures Idx(t, r, w) < n * w
  {
    HeadFits(t, n, w);
  }

  lemma IdxInjective(t: nat, r: nat, t2: nat, r2: nat, w: nat)
    requires r < w && r2 < w && Idx(t, r, w) == Idx(t2, r2, w)
    ensures t == t2 && r == r2
  {
    UniqueRemainder(Idx(t, r, w), w, t, r);
    UniqueRemainder(Idx(t, r, w), w, t2, r2);
    if t < t2 {
      HeadFits(t, t2, w);
    } else if t2 < t {
      HeadFits(t2, t, w);
    }
  }

  /** One dequantised weight row against every token. */
  method RowProducts(ar: Arith, wr: Row, nIn: nat, x: Row, n: nat) returns (out: Row)
    ensures |out| == n && forall t | 0 <= t < n :: out[t] == ar.dot(wr, HeadOf(x, t, nIn))
  {
    out := [];
    var t := 0;
    while t < n
      invariant t <= n && |out| == t
      invariant forall i | 0 <= i < t :: out[i] == ar.dot(wr, HeadOf(x, i, nIn))
    {
      out := out + [ar.dot(wr, HeadOf(x, t, nIn))];
      t := t + 1;
    }
  }

  /** The row-major products `rt[r * n + t]`, one weight row at a time. */
  method Products(ar: Arith, m: Mat, nIn: nat, x: Row, n: nat) returns (rt: Row, ghost rows: seq<Row>)
    ensures |rows| == |m.rows| && Flat(rt, n, rows)
    ensures forall r, t | 0 <= r < |rows| && 0 <= t < n :: |rows[r]| == n && rows[r][t] == ar.dot(m.rows[r], HeadOf(x, t, nIn))
  {
    rt, rows := [], [];
    var r := 0;
    while r < |m.rows|
      invariant r <= |m.rows| && |rows| == r && Flat(rt, n, rows)
      invariant forall i | 0 <= i < r :: |rows[i]| == n
      invariant forall i, t | 0 <= i < r && 0 <= t < n :: rows[i][t] == ar.dot(m.rows[i], HeadOf(x, t, nIn))
    {
      var out := RowProducts(ar, m.rows[r], nIn, x, n);
      FlatAppend(rt, n, rows, out);
      rt, rows := rt + out, rows + [out];
      r := r + 1;
    }
  }

  /** What the transposition has stored so far: columns below `r`, and rows below `t` of column `r`. */
  ghost predicate Transposed(y: array<Float>, rows: seq<Row>, n: nat, r: nat, t: nat)
    reads y
  {
    && y.Length == n * |rows|
    && (forall i | 0 <= i < |rows| :: |rows[i]| == n)
    && forall i, u | 0 <= i < |rows| && 0 <= u < n && (i < r || (i == r && u < t)) ::
         Idx(u, i, |rows|) < y.Length && y[Idx(u, i, |rows|)] == rows[i][u]
  }

  /** Row-major to token-major. */
  method Transpose(rt: Row, nOut: nat, n: nat, ghost rows: seq<Row>) returns (y: array<Float>)
    requires |rows| == nOut && Flat(rt, n, rows) && forall i | 0 <= i < nOut :: |rows[i]| == n
    ensures fresh(y) && Transposed(y, rows, n, nOut, 0)
  {
    y := new Float[n * nOut](_ => Float(0));
    var r := 0;
    while r < nOut
      invariant r <= nOut && Transposed(y, rows, n, r, 0)
    {
      TransposeColumn(rt, nOut, n, r, y, rows);
      r := r + 1;
    }
  }

  method TransposeColumn(rt: Row, nOut: nat, n: nat, r: nat, y: array<Float>, ghost rows: seq<Row>)
    requires r < nOut == |rows| && Flat(rt, n, rows) && Transposed(y, rows, n, r, 0)
    modifies y
    ensures Transposed(y, rows, n, r + 1, 0)
  {
    var t := 0;
    while t < n
      invariant t <= n && Transposed(y, rows, n, r, t)
    {
      FlatElem(rt, nOut, n, r, t);
      IdxInRange(t, n, r, nOut);
      StoreElem(y, rows, nOut, n, r, t, rt[r * n + t]);
      t := t + 1;
    }
  }

  method StoreElem(y: array<Float>, ghost rows: seq<Row>, nOut: nat, ghost n: nat, r: nat, t: nat, v: Float)
    requires r < |rows| == nOut && t < n && Transposed(y, rows, n, r, t) && v == rows[r][t] && Idx(t, r, |rows|) < y.Length
    modifies y
    ensures Transposed(y, rows, n, r, t + 1)
  {
    forall i, u | 0 <= i < |rows| && Idx(u, i, |rows|) == Idx(t, r, |rows|)
      ensures i == r && u == t
    {
      IdxInjective(u, i, t, r, |rows|);
    }
    hide Idx;
    y[Idx(t, r, nOut)] := v;
  }

  /** The matmul of every row. */
  function MatRows(ar: Arith, m: Mat, xs: seq<Row>): (ys: seq<Row>)
    ensures |ys| == |xs|
  {
    seq(|xs|, t requires 0 <= t < |xs| => MatVec(ar, m, xs[t]))
  }

  /** `matmul`: token-major in, token-major out, computed weight row by weight row. */
  method Matmul(ar: Arith, m: Mat, nIn: nat, x: Row, n: nat, ghost xs: seq<Row>) returns (y: Row)
    requires Flat(x, nIn, xs) && |xs| == n
    ensures Flat(y, |m.rows|, MatRows(ar, m, xs))
  {
    var rt, rows := Products(ar, m, nIn, x, n);
    var out := Transpose(rt, |m.rows|, n, rows);
    y := out[..];
    var w := |m.rows|;
    forall t | 0 <= t < n
      ensures HeadOf(y, t, w) == MatVec(ar, m, xs[t])
    {
      TransposedRow(ar, m, nIn, x, n, rows, y, t, xs[t]);
    }
  }

  lemma TransposedRow(ar: Arith, m: Mat, nIn: nat, x: Row, n: nat, rows: seq<Row>, y: Row, t: nat, xt: Row)
    requires t < n && |rows| == |m.rows| && |y| == n * |rows| && xt == HeadOf(x, t, nIn)
    requires forall r, u | 0 <= r < |rows| && 0 <= u < n :: |rows[r]| == n && rows[r][u] == ar.dot(m.rows[r], HeadOf(x, u, nIn))
    requires forall i, u | 0 <= i < |rows| && 0 <= u < n :: Idx(u, i, |rows|) < |y| && y[Idx(u, i, |rows|)] == rows[i][u]
    ensures HeadOf(y, t, |m.rows|) == MatVec(ar, m, xt)
  {
    var a, b := HeadOf(y, t, |m.rows|), MatVec(ar, m, xt);
    forall r | 0 <= r < |m.rows|
      ensures a[r] == b[r]
    {
      FlatElem(y, n, |rows|, t, r);
      assert y[Idx(t, r, |rows|)] == rows[r][t];
    }
  }

  // ---------------------------------------------------------- row passes

  function NormRows(ar: Arith, w: Row, xs: seq<Row>): (ys: seq<Row>)
    ensures |ys| == |xs|
  {
    seq(|xs|, t requires 0 <= t < |xs| => NormRow(ar, xs[t], Some(w)))
  }

  /** `rmsnorm_one`: element by element, with its weight if there is one. */
  method RmsNormOne(ar: Arith, w: Option<Row>, row: Row) returns (r: Row)
    ensures r == NormRow(ar, row, w)
  {
    r := [];
    var i := 0;
    while i < |row|
      invariant i <= |row| && r == NormRow(ar, row, w)[..i]
    {
      r := r + [ar.norm(row, row[i], if w.Some? && i < |w.value| then Some(w.value[i]) else None)];
      i := i + 1;
    }
  }

  /** `apply_rope`: pair `i` couples `i` and `i + half`, both rotated in place. */
  method ApplyRope(ar: Arith, k: Kind, pos: nat, head: Row) returns (r: Row)
    ensures r == RopeHead(ar, k, pos, head)
  {
    hide RopeElem;
    var h := new Float[|head|](i requires 0 <= i < |head| => head[i]);
    var half := |head| / 2;
    var i := 0;
    while i < half
      invariant i <= half
      invariant forall j | 0 <= j < |head| :: h[j] == if j < i || half <= j < half + i then RopeElem(ar, k, pos, head, j) else head[j]
    {
      PairElems(ar, k, pos, head, i);
      var turned := ar.rope(k, pos, i, h[i], h[i + half]);
      h[i], h[i + half] := turned.0, turned.1;
      i := i + 1;
    }
    OddElem(ar, k, pos, head);
    r := h[..];
  }

  lemma PairElems(ar: Arith, k: Kind, pos: nat, head: Row, i: nat)
    requires i < |head| / 2
    ensures var half := |head| / 2;
            (RopeElem(ar, k, pos, head, i), RopeElem(ar, k, pos, head, i + half)) == ar.rope(k, pos, i, head[i], head[i + half])
  {
  }

  lemma OddElem(ar: Arith, k: Kind, pos: nat, head: Row)
    ensures forall j | 2 * (|head| / 2) <= j < |head| :: RopeElem(ar, k, pos, head, j) == head[j]
  {
  }

  /** `*h += r` over two rows of one length. */
  method AddInto(ar: Arith, x: Row, y: Row) returns (r: Row)
    requires |x| == |y|
    ensures r == AddRow(ar, x, y)
  {
    r := [];
    var i := 0;
    while i < |x|
      invariant i <= |x| && r == AddRow(ar, x, y)[..i]
    {
      assert At(y, i) == y[i];
      r := r + [ar.add(x[i], y[i])];
      i := i + 1;
    }
  }

  /** `*g = gelu_tanh(*g) * u`. */
  method Gate(ar: Arith, g: Row, u: Row) returns (r: Row)
    requires |g| == |u|
    ensures r == GegluRow(ar, g, u)
  {
    r := [];
    var i := 0;
    while i < |g|
      invariant i <= |g| && r == GegluRow(ar, g, u)[..i]
    {
      r := r + [ar.mul(ar.gelu(g[i]), u[i])];
      i := i + 1;
    }
  }

  /** `*v *= s`. */
  method Scale(ar: Arith, x: Row, s: Float) returns (r: Row)
    ensures r == ScaleRow(ar, x, s)
  {
    r := [];
    var i := 0;
    while i < |x|
      invariant i <= |x| && r == ScaleRow(ar, x, s)[..i]
    {
      r := r + [ar.mul(x[i], s)];
      i := i + 1;
    }
  }

  /** `rmsnorm_rows`: every `row_len` chunk in turn. */
  method RmsNormRows(ar: Arith, w: Row, width: nat, x: Row, n: nat, ghost xs: seq<Row>) returns (y: Row)
    requires Flat(x, width, xs) && |xs| == n
    ensures Flat(y, width, NormRows(ar, w, xs))
  {
    y := [];
    var t := 0;
    while t < n
      invariant t <= n && Flat(y, width, NormRows(ar, w, xs)[..t])
    {
      var row := RmsNormOne(ar, Some(w), HeadOf(x, t, width));
      FlatAppend(y, width, NormRows(ar, w, xs)[..t], row);
      assert NormRows(ar, w, xs)[..t] + [row] == NormRows(ar, w, xs)[..t + 1];
      y := y + row;
      t := t + 1;
    }
    assert NormRows(ar, w, xs)[..n] == NormRows(ar, w, xs);
  }

  /** The token and head of flat head chunk `i`. */
  lemma ChunkOf(i: nat, n: nat, t: nat, h: nat)
    requires h < n && i == t * n + h
    ensures i / n == t && i % n == h
  {
    UniqueRemainder(i, n, t, h);
    var q := i / n;
    assert i == q * n + h;
    assert (q - t) * n == 0;
    if q < t {
      HeadFits(q, t, n);
    } else if t < q {
      HeadFits(t, q, n);
    }
  }

  /** What a head pass does at token position `pos`: normalise, and rotate if `rope`. */
  function PassOp(w: Option<Row>, rope: bool, k: Kind, pos: nat): HeadOp {
    if rope then NormThenRope(w, k, pos) else Norm(w)
  }

  function PassRows(ar: Arith, w: Option<Row>, rope: bool, k: Kind, q0: nat, xs: seq<Row>, n: nat, hd: nat): (ys: seq<Row>)
    ensures |ys| == |xs|
  {
    seq(|xs|, t requires 0 <= t < |xs| => MapHeads(ar, PassOp(w, rope, k, q0 + t), xs[t], n, hd))
  }

  /** One head of a pass. */
  method HeadOnce(ar: Arith, w: Option<Row>, rope: bool, k: Kind, pos: nat, head: Row) returns (r: Row)
    ensures r == OnHead(ar, PassOp(w, rope, k, pos), head)
  {
    r := RmsNormOne(ar, w, head);
    if rope {
      r := ApplyRope(ar, k, pos, r);
    }
  }

  /** The loops over `head_rows`: flat head chunk `i` belongs to token `i / n`. */
  method HeadChunks(ar: Arith, w: Option<Row>, rope: bool, k: Kind, q0: nat, x: Row, n: nat, hd: nat, tokens: nat)
    returns (y: Row, ghost cs: seq<Row>)
    requires 0 < n
    ensures |cs| == tokens * n && y == Cat(cs)
    ensures forall i | 0 <= i < |cs| :: cs[i] == OnHead(ar, PassOp(w, rope, k, q0 + i / n), HeadOf(x, i, hd))
  {
    y, cs := [], [];
    var i := 0;
    while i < tokens * n
      invariant i <= tokens * n && |cs| == i && y == Cat(cs)
      invariant forall j | 0 <= j < i :: cs[j] == OnHead(ar, PassOp(w, rope, k, q0 + j / n), HeadOf(x, j, hd))
    {
      var c := HeadOnce(ar, w, rope, k, q0 + i / n, HeadOf(x, i, hd));
      CatPush(cs, c);
      y, cs := y + c, cs + [c];
      i := i + 1;
    }
  }

  lemma ChunksOfToken(ar: Arith, w: Option<Row>, rope: bool, k: Kind, q0: nat, x: Row, n: nat, hd: nat, xs: seq<Row>, cs: seq<Row>, t: nat)
    requires 0 < n && Flat(x, n * hd, xs) && t < |xs| && |cs| == |xs| * n
    requires forall i | 0 <= i < |cs| :: cs[i] == OnHead(ar, PassOp(w, rope, k, q0 + i / n), HeadOf(x, i, hd))
    ensures t * n + n <= |cs| && MapHeads(ar, PassOp(w, rope, k, q0 + t), xs[t], n, hd) == Cat(cs[t * n..t * n + n])
  {
    HeadFits(t, |xs|, n);
    var part, base := cs[t * n..t * n + n], t * n;
    forall h | 0 <= h < n
      ensures part[h] == OnHead(ar, PassOp(w, rope, k, q0 + t), HeadOf(xs[t], h, hd))
    {
      ChunkOf(base + h, n, t, h);
      NestedHead(x, t, n, h, hd);
      assert part[h] == cs[base + h];
    }
    MapIsCat(ar, PassOp(w, rope, k, q0 + t), xs[t], n, hd, part);
  }

  method HeadPass(ar: Arith, w: Option<Row>, rope: bool, k: Kind, q0: nat, x: Row, n: nat, hd: nat, tokens: nat, ghost xs: seq<Row>)
    returns (y: Row)
    requires 0 < n && Flat(x, n * hd, xs) && |xs| == tokens
    ensures Flat(y, n * hd, PassRows(ar, w, rope, k, q0, xs, n, hd))
  {
    ghost var cs;
    y, cs := HeadChunks(ar, w, rope, k, q0, x, n, hd, tokens);
    ghost var rows := PassRows(ar, w, rope, k, q0, xs, n, hd);
    assert forall i | 0 <= i < |cs| :: |cs[i]| == hd;
    forall t | 0 <= t < tokens
      ensures t * n + n <= |cs| && rows[t] == Cat(cs[t * n..t * n + n])
    {
      ChunksOfToken(ar, w, rope, k, q0, x, n, hd, xs, cs, t);
    }
    CatRows(cs, n, hd, tokens, rows);
  }

  lemma {:induction false} MapIsCat(ar: Arith, op: HeadOp, row: Row, n: nat, hd: nat, cs: seq<Row>)
    requires |cs| == n && forall h | 0 <= h < n :: cs[h] == OnHead(ar, op, HeadOf(row, h, hd))
    ensures Cat(cs) == MapHeads(ar, op, row, n, hd)
    decreases n
  {
    if n > 0 {
      MapIsCat(ar, op, row, n - 1, hd, cs[..n - 1]);
    }
  }

  // ------------------------------------------------------------ attention

  /** One query head over cache positions `lo ..= qPos`, reading K/V head `kvh` out of the flat caches. */
  method AttendFlat(ar: Arith, qr: Row, ck: Row, cv: Row, lo: nat, qPos: nat, nKv: nat, kvh: nat, hd: nat, ghost kvs: seq<(Row, Row)>)
    returns (dst: Row)
    requires kvh < nKv && lo <= qPos + 1 <= |kvs| && FlatKv(ck, cv, nKv * hd, kvs)
    ensures dst == AttendHead(ar, qr, kvs[lo..qPos + 1], kvh, hd)
  {
    ghost var seen := kvs[lo..qPos + 1];
    var scores, kp := [], lo;
    while kp < qPos + 1
      invariant lo <= kp <= qPos + 1 && |scores| == kp - lo
      invariant forall i | 0 <= i < kp - lo :: scores[i] == ar.score(qr, HeadOf(seen[i].0, kvh, hd))
    {
      NestedHead(ck, kp, nKv, kvh, hd);
      scores := scores + [ar.score(qr, HeadOf(ck, kp * nKv + kvh, hd))];
      kp := kp + 1;
    }
    dst := [];
    var j := 0;
    while j < hd
      invariant j <= hd && dst == AttendHead(ar, qr, seen, kvh, hd)[..j]
    {
      var pairs := WeighValues(ar, qr, scores, cv, ck, lo, nKv, kvh, hd, j, kvs, seen);
      dst := dst + [ar.mix(pairs)];
      j := j + 1;
    }
  }

  /** The (score, value element) pairs of output element `j`, oldest position first. */
  method WeighValues(ar: Arith, ghost qr: Row, scores: Row, cv: Row, ghost ck: Row, lo: nat, nKv: nat, kvh: nat, hd: nat, j: nat,
                     ghost kvs: seq<(Row, Row)>, ghost seen: seq<(Row, Row)>)
    returns (pairs: seq<(Float, Float)>)
    requires kvh < nKv && j < hd && FlatKv(ck, cv, nKv * hd, kvs)
    requires lo + |seen| <= |kvs| && seen == kvs[lo..lo + |seen|] && |scores| == |seen|
    requires forall i | 0 <= i < |seen| :: scores[i] == ar.score(qr, HeadOf(seen[i].0, kvh, hd))
    ensures pairs == Pairs(ar, qr, seen, kvh, hd, j)
  {
    pairs := [];
    var i := 0;
    while i < |scores|
      invariant i <= |scores| && pairs == Pairs(ar, qr, seen, kvh, hd, j)[..i]
    {
      NestedElem(cv, lo + i, nKv, kvh, hd, j);
      pairs := pairs + [(scores[i], HeadOf(cv, (lo + i) * nKv + kvh, hd)[j])];
      i := i + 1;
    }
  }

  /** Query chunk `i` of the flat queries: token `i / nq`, head `i % nq`. */
  function ChunkAttention(net: Net, kind: Kind, q: Row, q0: nat, kvs: seq<(Row, Row)>, i: nat): (r: Row)
    requires q0 + i / net.qHeads < |kvs|
    ensures |r| == net.Geo(kind).headDim
  {
    var hd := net.Geo(kind).headDim;
    AttendHead(net.ar, HeadOf(q, i, hd), Visible(net, kind, kvs, q0 + i / net.qHeads), (i % net.qHeads) / PerKv(net, kind), hd)
  }

  lemma ChunkBounds(net: Net, kind: Kind, i: nat, n: nat)
    requires i < n * net.qHeads
    ensures i / net.qHeads < n && (i % net.qHeads) / PerKv(net, kind) < net.Geo(kind).kvHeads
  {
    var nq, nkv, t, h := net.qHeads, net.Geo(kind).kvHeads, i / net.qHeads, i % net.qHeads;
    assert i == t * nq + h;
    if n <= t {
      Times(n, t, nq);
    }
    GroupInRange(nq, nkv, h);
  }

  /** `h / (nq / nkv)` names a K/V head only when the query heads divide evenly. */
  lemma GroupInRange(nq: nat, nkv: nat, h: nat)
    requires 0 < nkv <= nq && nq % nkv == 0 && h < nq
    ensures h / (nq / nkv) < nkv
  {
    var g := nq / nkv;
    assert nq == g * nkv;
    var q := h / g;
    assert h == q * g + h % g;
    if nkv <= q {
      Times(nkv, q, g);
    }
  }

  /** Query heads divide evenly among the key/value heads, with nothing left over. */
  lemma GroupsCoverHeads(net: Net, k: Kind)
    ensures PerKv(net, k) * net.Geo(k).kvHeads == net.qHeads
  {
    DividesEvenly(net.qHeads, net.Geo(k).kvHeads);
  }

  lemma DividesEvenly(a: nat, b: nat)
    requires 0 < b && a % b == 0
    ensures a / b * b == a
  {
  }

  lemma SameFactor(a: nat, b: nat, m: nat)
    requires 0 < m && a * m == b * m
    ensures a == b
  {
    if a < b {
      HeadFits(a, b, m);
    } else if b < a {
      HeadFits(b, a, m);
    }
  }

  /** The heads of an attention row, head by head. */
  function HeadRows(ar: Arith, q: Row, kvs: seq<(Row, Row)>, perKv: nat, hd: nat, n: nat): (rows: seq<Row>)
    requires 0 < perKv
    ensures |rows| == n && forall h | 0 <= h < n :: rows[h] == AttendHead(ar, HeadOf(q, h, hd), kvs, h / perKv, hd)
  {
    seq(n, h requires 0 <= h < n => AttendHead(ar, HeadOf(q, h, hd), kvs, h / perKv, hd))
  }

  lemma {:induction false} HeadsAreFlat(ar: Arith, q: Row, kvs: seq<(Row, Row)>, perKv: nat, hd: nat, n: nat)
    requires 0 < perKv
    ensures Flat(AttendHeads(ar, q, kvs, perKv, hd, n), hd, HeadRows(ar, q, kvs, perKv, hd, n))
    decreases n
  {
    if n == 0 {
      assert 0 * hd == 0;
    } else {
      hide AttendHead, HeadOf, Flat;
      var init, last := HeadRows(ar, q, kvs, perKv, hd, n - 1), AttendHead(ar, HeadOf(q, n - 1, hd), kvs, (n - 1) / perKv, hd);
      HeadsAreFlat(ar, q, kvs, perKv, hd, n - 1);
      FlatAppend(AttendHeads(ar, q, kvs, perKv, hd, n - 1), hd, init, last);
      assert HeadRows(ar, q, kvs, perKv, hd, n) == init + [last];
    }
  }

  /**
    Which head reads which: with `n` query heads to each key/value head, the `n` outputs of block `g` come from
    key/value head `g`, each from its own query head; the blocks cover all query heads in order.
   */
  lemma BlockReadsItsHead(net: Net, k: Kind, q: Row, kvs: seq<(Row, Row)>, n: nat, g: nat, j: nat)
    requires n * net.Geo(k).kvHeads == net.qHeads && g < net.Geo(k).kvHeads && j < n
    ensures g * n + j < net.qHeads
    ensures HeadOf(AttendRow(net, k, q, kvs), g * n + j, net.Geo(k).headDim) ==
            AttendHead(net.ar, HeadOf(q, g * n + j, net.Geo(k).headDim), kvs, g, net.Geo(k).headDim)
  {
    var m, hd := net.Geo(k).kvHeads, net.Geo(k).headDim;
    hide AttendHead, HeadOf, PerKv;
    GroupsCoverHeads(net, k);
    SameFactor(PerKv(net, k), n, m);
    HeadFits(g, m, n);
    ChunkOf(g * n + j, n, g, j);
    HeadsAreFlat(net.ar, q, kvs, n, hd, net.qHeads);
  }

  function AttendRows(net: Net, kind: Kind, qs: seq<Row>, kvs: seq<(Row, Row)>, q0: nat): (ys: seq<Row>)
    requires q0 + |qs| <= |kvs|
    ensures |ys| == |qs|
  {
    seq(|qs|, t requires 0 <= t < |qs| => AttendRow(net, kind, qs[t], Visible(net, kind, kvs, q0 + t)))
  }

  /** One chunk: the head of one query, over what its position sees. */
  method AttendChunk(net: Net, kind: Kind, q: Row, ck: Row, cv: Row, n: nat, q0: nat, i: nat, ghost kvs: seq<(Row, Row)>)
    returns (dst: Row)
    requires q0 + n <= |kvs| && FlatKv(ck, cv, net.KvDim(kind), kvs) && i < n * net.qHeads
    ensures q0 + i / net.qHeads < |kvs| && dst == ChunkAttention(net, kind, q, q0, kvs, i)
  {
    ChunkBounds(net, kind, i, n);
    var t, h := i / net.qHeads, i % net.qHeads;
    var geo := if kind.Sliding? then net.sliding else net.global;
    var perKv := net.qHeads / geo.kvHeads;
    dst := AttendHeadOf(net, kind, HeadOf(q, i, geo.headDim), ck, cv, q0 + t, h / perKv, kvs);
  }

  method AttendHeadOf(net: Net, kind: Kind, head: Row, ck: Row, cv: Row, qPos: nat, kvHead: nat, ghost kvs: seq<(Row, Row)>)
    returns (dst: Row)
    requires qPos < |kvs| && FlatKv(ck, cv, net.KvDim(kind), kvs) && kvHead < net.Geo(kind).kvHeads
    ensures dst == AttendHead(net.ar, head, Visible(net, kind, kvs, qPos), kvHead, net.Geo(kind).headDim)
  {
    hide AttendHead, HeadOf, FlatKv;
    var lo := if kind.Sliding? && qPos + 1 > net.window then qPos + 1 - net.window else 0;
    dst := AttendFlat(net.ar, head, ck, cv, lo, qPos, net.Geo(kind).kvHeads, kvHead, net.Geo(kind).headDim, kvs);
  }

  ghost predicate AreChunks(net: Net, kind: Kind, q: Row, q0: nat, kvs: seq<(Row, Row)>, cs: seq<Row>) {
    forall i | 0 <= i < |cs| :: q0 + i / net.qHeads < |kvs| && cs[i] == ChunkAttention(net, kind, q, q0, kvs, i)
  }

  lemma ChunkLengths(net: Net, kind: Kind, q: Row, q0: nat, kvs: seq<(Row, Row)>, cs: seq<Row>)
    requires AreChunks(net, kind, q, q0, kvs, cs)
    ensures forall i | 0 <= i < |cs| :: |cs[i]| == net.Geo(kind).headDim
  {
    hide ChunkAttention;
  }

  /** `attention`, chunk by chunk over tokens and query heads. */
  method AttendChunks(net: Net, kind: Kind, q: Row, ck: Row, cv: Row, n: nat, q0: nat, ghost kvs: seq<(Row, Row)>)
    returns (out: Row, ghost cs: seq<Row>)
    requires q0 + n <= |kvs| && FlatKv(ck, cv, net.KvDim(kind), kvs)
    ensures |cs| == n * net.qHeads && out == Cat(cs)
    ensures AreChunks(net, kind, q, q0, kvs, cs)
  {
    hide ChunkAttention;
    var nq := net.qHeads;
    out, cs := [], [];
    var i := 0;
    while i < n * nq
      invariant i <= n * nq && |cs| == i && out == Cat(cs)
      invariant forall j | 0 <= j < i :: q0 + j / nq < |kvs| && cs[j] == ChunkAttention(net, kind, q, q0, kvs, j)
    {
      var dst := AttendChunk(net, kind, q, ck, cv, n, q0, i, kvs);
      CatPush(cs, dst);
      out, cs := out + dst, cs + [dst];
      i := i + 1;
    }
  }

  method Attention(net: Net, kind: Kind, q: Row, ck: Row, cv: Row, n: nat, q0: nat, ghost qs: seq<Row>, ghost kvs: seq<(Row, Row)>)
    returns (out: Row)
    requires |qs| == n && q0 + n <= |kvs| && FlatKv(ck, cv, net.KvDim(kind), kvs) && Flat(q, net.QDim(kind), qs)
    ensures Flat(out, net.QDim(kind), AttendRows(net, kind, qs, kvs, q0))
  {
    hide AreChunks, Flat, FlatKv, Cat;
    ghost var cs;
    out, cs := AttendChunks(net, kind, q, ck, cv, n, q0, kvs);
    TokensInChunks(net, kind, q, q0, qs, kvs, cs);
    CatRows(cs, net.qHeads, net.Geo(kind).headDim, n, AttendRows(net, kind, qs, kvs, q0));
  }

  lemma TokensInChunks(net: Net, kind: Kind, q: Row, q0: nat, qs: seq<Row>, kvs: seq<(Row, Row)>, cs: seq<Row>)
    requires q0 + |qs| <= |kvs| && Flat(q, net.QDim(kind), qs) && |cs| == |qs| * net.qHeads
    requires AreChunks(net, kind, q, q0, kvs, cs)
    ensures InChunks(cs, net.qHeads, net.Geo(kind).headDim, AttendRows(net, kind, qs, kvs, q0))
  {
    hide AreChunks, Flat, Cat, AttendRow, Visible;
    var rows := AttendRows(net, kind, qs, kvs, q0);
    ChunkLengths(net, kind, q, q0, kvs, cs);
    forall t | 0 <= t < |qs|
      ensures t * net.qHeads + net.qHeads <= |cs| && rows[t] == Cat(cs[t * net.qHeads..t * net.qHeads + net.qHeads])
    {
      AttentionOfToken(net, kind, q, q0, qs, kvs, cs, t);
    }
  }

  lemma ChunkOfHead(net: Net, kind: Kind, q: Row, q0: nat, qs: seq<Row>, kvs: seq<(Row, Row)>, t: nat, h: nat)
    requires q0 + |qs| <= |kvs| && Flat(q, net.QDim(kind), qs) && t < |qs| && h < net.qHeads
    ensures q0 + (t * net.qHeads + h) / net.qHeads < |kvs|
    ensures ChunkAttention(net, kind, q, q0, kvs, t * net.qHeads + h)
            == AttendHead(net.ar, HeadOf(qs[t], h, net.Geo(kind).headDim), Visible(net, kind, kvs, q0 + t), h / PerKv(net, kind), net.Geo(kind).headDim)
  {
    ChunkOf(t * net.qHeads + h, net.qHeads, t, h);
    NestedHead(q, t, net.qHeads, h, net.Geo(kind).headDim);
  }

  /** The chunks of one token, as the heads they attend with. */
  lemma HeadsOfToken(net: Net, kind: Kind, q: Row, q0: nat, qs: seq<Row>, kvs: seq<(Row, Row)>, cs: seq<Row>, t: nat, base: nat, h: nat)
    requires q0 + |qs| <= |kvs| && Flat(q, net.QDim(kind), qs) && t < |qs| && h < net.qHeads
    requires base == t * net.qHeads && base + net.qHeads <= |cs|
    requires AreChunks(net, kind, q, q0, kvs, cs)
    ensures cs[base + h] == AttendHead(net.ar, HeadOf(qs[t], h, net.Geo(kind).headDim), Visible(net, kind, kvs, q0 + t), h / PerKv(net, kind), net.Geo(kind).headDim)
  {
    hide ChunkAttention, Visible, AttendHead, HeadOf, Flat;
    ChunkOfHead(net, kind, q, q0, qs, kvs, t, h);
  }

  lemma AttentionOfToken(net: Net, kind: Kind, q: Row, q0: nat, qs: seq<Row>, kvs: seq<(Row, Row)>, cs: seq<Row>, t: nat)
    requires q0 + |qs| <= |kvs| && Flat(q, net.QDim(kind), qs) && t < |qs| && |cs| == |qs| * net.qHeads
    requires AreChunks(net, kind, q, q0, kvs, cs)
    ensures var n := net.qHeads;
            t * n + n <= |cs| && AttendRow(net, kind, qs[t], Visible(net, kind, kvs, q0 + t)) == Cat(cs[t * n..t * n + n])
  {
    HeadFits(t, |qs|, net.qHeads);
    TokenRow(net, kind, q, q0, qs, kvs, cs, t, t * net.qHeads);
  }

  lemma TokenRow(net: Net, kind: Kind, q: Row, q0: nat, qs: seq<Row>, kvs: seq<(Row, Row)>, cs: seq<Row>, t: nat, base: nat)
    requires q0 + |qs| <= |kvs| && Flat(q, net.QDim(kind), qs) && t < |qs|
    requires base == t * net.qHeads && base + net.qHeads <= |cs|
    requires AreChunks(net, kind, q, q0, kvs, cs)
    ensures AttendRow(net, kind, qs[t], Visible(net, kind, kvs, q0 + t)) == Cat(cs[base..base + net.qHeads])
  {
    hide ChunkAttention, Visible, AttendHead, HeadOf, Flat, Cat, AreChunks;
    var n, hd := net.qHeads, net.Geo(kind).headDim;
    var part, perKv, seen := cs[base..base + n], PerKv(net, kind), Visible(net, kind, kvs, q0 + t);
    hide PerKv;
    forall h: nat | h < n
      ensures AttendsAs(net.ar, qs[t], seen, perKv, hd, h, part[h])
    {
      HeadsOfToken(net, kind, q, q0, qs, kvs, cs, t, base, h);
    }
    AttendIsCat(net.ar, qs[t], seen, perKv, hd, n, part);
  }

  ghost predicate AttendsAs(ar: Arith, q: Row, seen: seq<(Row, Row)>, perKv: nat, hd: nat, h: nat, c: Row) {
    0 < perKv && c == AttendHead(ar, HeadOf(q, h, hd), seen, h / perKv, hd)
  }

  lemma {:induction false} AttendIsCat(ar: Arith, q: Row, seen: seq<(Row, Row)>, perKv: nat, hd: nat, n: nat, cs: seq<Row>)
    requires 0 < perKv && |cs| == n && forall h: nat | h < n :: AttendsAs(ar, q, seen, perKv, hd, h, cs[h])
    ensures Cat(cs) == AttendHeads(ar, q, seen, perKv, hd, n)
    decreases n
  {
    if n > 0 {
      AttendIsCat(ar, q, seen, perKv, hd, n - 1, cs[..n - 1]);
    }
  }

  // -------------------------------------------------------------- forward

  /** Projections of one layer: flat q, k, v of the new positions. */
  method ProjectFlat(net: Net, ly: Layer, x: Row, n: nat, q0: nat, ghost xs: seq<Row>) returns (q: Row, k: Row, v: Row)
    requires net.LayerShapes(ly) && Flat(x, net.Hid(), xs) && |xs| == n
    ensures Flat(q, net.QDim(ly.kind), seq(n, t requires 0 <= t < n => QueryOf(net, ly, q0 + t, xs[t])))
    ensures Flat(k, net.KvDim(ly.kind), seq(n, t requires 0 <= t < n => KeyOf(net, ly, q0 + t, xs[t])))
    ensures Flat(v, net.KvDim(ly.kind), seq(n, t requires 0 <= t < n => ValueOf(net, ly, xs[t])))
  {
    var ar, geo, hid := net.ar, if ly.kind.Sliding? then net.sliding else net.global, net.Hid();
    var xn := RmsNormRows(ar, ly.attnNorm, hid, x, n, xs);
    ghost var xns := NormRows(ar, ly.attnNorm, xs);
    q := Matmul(ar, ly.wq, hid, xn, n, xns);
    q := HeadPass(ar, Some(ly.qNorm), true, ly.kind, q0, q, net.qHeads, geo.headDim, n, MatRows(ar, ly.wq, xns));
    var kProj := Matmul(ar, ly.wk, hid, xn, n, xns);
    ghost var vw := ly.wk;
    v := kProj;
    if ly.wv.Some? {
      v := Matmul(ar, ly.wv.value, hid, xn, n, xns);
      vw := ly.wv.value;
    }
    k := HeadPass(ar, Some(ly.kNorm), true, ly.kind, q0, kProj, geo.kvHeads, geo.headDim, n, MatRows(ar, ly.wk, xns));
    v := HeadPass(ar, None, false, ly.kind, q0, v, geo.kvHeads, geo.headDim, n, MatRows(ar, vw, xns));
    assert PassRows(ar, Some(ly.qNorm), true, ly.kind, q0, MatRows(ar, ly.wq, xns), net.qHeads, geo.headDim)
           == seq(n, t requires 0 <= t < n => QueryOf(net, ly, q0 + t, xs[t]));
    assert PassRows(ar, Some(ly.kNorm), true, ly.kind, q0, MatRows(ar, ly.wk, xns), geo.kvHeads, geo.headDim)
           == seq(n, t requires 0 <= t < n => KeyOf(net, ly, q0 + t, xs[t]));
    assert PassRows(ar, None, false, ly.kind, q0, MatRows(ar, vw, xns), geo.kvHeads, geo.headDim)
           == seq(n, t requires 0 <= t < n => ValueOf(net, ly, xs[t]));
  }

  function FinishRows(net: Net, ly: Layer, xs: seq<Row>, attn: seq<Row>): (ys: seq<Row>)
    requires |attn| == |xs|
    ensures |ys| == |xs|
  {
    seq(|xs|, t requires 0 <= t < |xs| => AfterAttention(net, ly, xs[t], attn[t]))
  }

  /** Output projection and both residual blocks, in place on the flat stream. */
  method FinishFlat(net: Net, ly: Layer, x0: Row, attn: Row, n: nat, ghost xs: seq<Row>, ghost outs: seq<Row>) returns (x: Row)
    requires net.LayerShapes(ly) && |xs| == |outs| == n
    requires Flat(x0, net.Hid(), xs) && Flat(attn, net.QDim(ly.kind), outs)
    ensures Flat(x, net.Hid(), FinishRows(net, ly, xs, outs))
  {
    var ar, hid := net.ar, net.Hid();
    var o := Matmul(ar, ly.wo, net.QDim(ly.kind), attn, n, outs);
    ghost var os := MatRows(ar, ly.wo, outs);
    o := RmsNormRows(ar, ly.postAttnNorm, hid, o, n, os);
    os := NormRows(ar, ly.postAttnNorm, os);
    FlatAdd(ar, x0, o, hid, xs, os);
    x := AddInto(ar, x0, o);
    ghost var hs := seq(n, t requires 0 <= t < n => AddRow(ar, xs[t], os[t]));
    assert Flat(x, hid, hs);
    x := FfnFlat(net, ly, x, n, hs);
    assert FinishRows(net, ly, xs, outs) == seq(n, t requires 0 <= t < n => FeedForward(net, ly, hs[t]));
  }

  method FfnFlat(net: Net, ly: Layer, x0: Row, n: nat, ghost hs: seq<Row>) returns (x: Row)
    requires net.LayerShapes(ly) && |hs| == n && Flat(x0, net.Hid(), hs)
    ensures Flat(x, net.Hid(), seq(n, t requires 0 <= t < n => FeedForward(net, ly, hs[t])))
  {
    var ar, hid, ffn := net.ar, net.Hid(), |ly.wg.rows|;
    var fin := RmsNormRows(ar, ly.ffnNorm, hid, x0, n, hs);
    ghost var fins := NormRows(ar, ly.ffnNorm, hs);
    var gate := Matmul(ar, ly.wg, hid, fin, n, fins);
    var up := Matmul(ar, ly.wu, hid, fin, n, fins);
    FlatGeglu(ar, gate, up, ffn, MatRows(ar, ly.wg, fins), MatRows(ar, ly.wu, fins));
    gate := Gate(ar, gate, up);
    ghost var gs := seq(n, t requires 0 <= t < n => GegluRow(ar, MatRows(ar, ly.wg, fins)[t], MatRows(ar, ly.wu, fins)[t]));
    assert Flat(gate, ffn, gs);
    var f := Matmul(ar, ly.wd, ffn, gate, n, gs);
    f := RmsNormRows(ar, ly.postFfwNorm, hid, f, n, MatRows(ar, ly.wd, gs));
    ghost var fs := NormRows(ar, ly.postFfwNorm, MatRows(ar, ly.wd, gs));
    FlatAdd(ar, x0, f, hid, hs, fs);
    x := AddInto(ar, x0, f);
    ghost var sums := seq(n, t requires 0 <= t < n => AddRow(ar, hs[t], fs[t]));
    assert Flat(x, hid, sums);
    FlatScale(ar, x, ly.scale, hid, sums);
    x := Scale(ar, x, ly.scale);
    assert seq(n, t requires 0 <= t < n => FeedForward(net, ly, hs[t])) == seq(n, t requires 0 <= t < n => ScaleRow(ar, sums[t], ly.scale));
  }

  /** One layer over the new positions `q0 ..`, extending this layer's flat history. */
  method LayerFlat(net: Net, ly: Layer, x0: Row, ck0: Row, cv0: Row, n: nat, q0: nat, ghost xs: seq<Row>)
    returns (x: Row, ck: Row, cv: Row)
    requires net.LayerShapes(ly) && |xs| == q0 + n && Flat(x0, net.Hid(), xs[q0..])
    requires FlatKv(ck0, cv0, net.KvDim(ly.kind), Kvs(net, ly, xs)[..q0])
    ensures FlatKv(ck, cv, net.KvDim(ly.kind), Kvs(net, ly, xs))
    ensures Flat(x, net.Hid(), LayerStep(net, ly, xs)[q0..])
  {
    ghost var kvs, new_ := Kvs(net, ly, xs), xs[q0..];
    var q, k, v := ProjectFlat(net, ly, x0, n, q0, new_);
    ghost var qs := seq(n, t requires 0 <= t < n => QueryOf(net, ly, q0 + t, new_[t]));
    ghost var ks := seq(n, t requires 0 <= t < n => KeyOf(net, ly, q0 + t, new_[t]));
    ghost var vs := seq(n, t requires 0 <= t < n => ValueOf(net, ly, new_[t]));
    FlatKvAppend(ck0, cv0, net.KvDim(ly.kind), kvs[..q0], k, v, ks, vs, kvs[q0..]);
    assert kvs[..q0] + kvs[q0..] == kvs;
    ck, cv := ck0 + k, cv0 + v;
    var attn := Attention(net, ly.kind, q, ck, cv, n, q0, qs, kvs);
    ghost var outs := AttendRows(net, ly.kind, qs, kvs, q0);
    x := FinishFlat(net, ly, x0, attn, n, new_, outs);
    assert FinishRows(net, ly, new_, outs) == LayerStep(net, ly, xs)[q0..];
  }

  // ---------------------------------------------------------------- cache

  /** Layers `lo .. hi` keep the linear history of `toks`. */
  ghost predicate HistoryHolds(net: Net, layers: seq<(Row, Row)>, toks: seq<nat>, lo: nat, hi: nat)
  {
    && |layers| == |net.layers| && hi <= |layers|
    && forall l | lo <= l < hi :: FlatKv(layers[l].0, layers[l].1, net.KvDim(net.layers[l].kind), LayerKvs(net, toks, l))
  }

  ghost predicate InVocab(net: Net, toks: seq<nat>) {
    forall t | 0 <= t < |toks| :: toks[t] < |net.embd.rows|
  }

  class CpuKvCache {
    /** Per layer, the flat K and V histories. */
    var layers: seq<(Row, Row)>
    var len: nat

    ghost predicate Holds(net: Net, toks: seq<nat>)
      reads this
    {
      len == |toks| && HistoryHolds(net, layers, toks, 0, |net.layers|)
    }

    constructor (net: Net)
      ensures Holds(net, [])
    {
      layers, len := seq(|net.layers|, _ => ([], [])), 0;
      new;
      forall l | 0 <= l < |layers|
        ensures FlatKv(layers[l].0, layers[l].1, net.KvDim(net.layers[l].kind), LayerKvs(net, [], l))
      {
        assert LayerKvs(net, [], l) == [];
      }
    }

    /**
      `CpuModel::forward`: run `tokens` at absolute positions `len ..`. Whatever
      was cached for `hist`, cache and logits end as one pass over `hist + tokens` would leave them.
     */
    method Forward(net: Net, tokens: seq<nat>, ghost hist: seq<nat>) returns (logits: Row)
      requires Holds(net, hist) && 0 < |tokens| && InVocab(net, tokens)
      modifies this
      ensures Holds(net, hist + tokens) && logits == Logits(net, hist + tokens)
    {
      hide HistoryHolds, Logits, Flat, InVocab, Stream;
      var x;
      x, layers := ForwardLayers(net, layers, tokens, len, hist);
      len := len + |tokens|;
      logits := HeadFlat(net, x, |tokens|, Stream(net, hist + tokens, |net.layers|)[|hist|..]);
      LastIsLogits(net, hist, tokens);
    }
  }

  lemma LastIsLogits(net: Net, hist: seq<nat>, tokens: seq<nat>)
    requires 0 < |tokens|
    ensures Logits(net, hist + tokens) == LogitsOf(net, Stream(net, hist + tokens, |net.layers|)[|hist|..][|tokens| - 1])
  {
  }

  /** Embedding and the whole stack. */
  method ForwardLayers(net: Net, layers0: seq<(Row, Row)>, tokens: seq<nat>, q0: nat, ghost hist: seq<nat>) returns (x: Row, layers: seq<(Row, Row)>)
    requires q0 == |hist| && InVocab(net, tokens) && HistoryHolds(net, layers0, hist, 0, |net.layers|)
    ensures HistoryHolds(net, layers, hist + tokens, 0, |net.layers|)
    ensures Flat(x, net.Hid(), Stream(net, hist + tokens, |net.layers|)[q0..])
  {
    x := EmbedFlat(net, tokens);
    layers := layers0;
    assert Stream(net, hist + tokens, 0)[q0..] == Embeds(net, tokens);
    var l := 0;
    while l < |net.layers|
      invariant l <= |net.layers|
      invariant HistoryHolds(net, layers, hist + tokens, 0, l)
      invariant HistoryHolds(net, layers, hist, l, |net.layers|)
      invariant Flat(x, net.Hid(), Stream(net, hist + tokens, l)[q0..])
    {
      hide HistoryHolds, Flat;
      x, layers := ForwardLayer(net, l, x, layers, |tokens|, q0, hist, tokens);
      l := l + 1;
    }
  }

  method EmbedFlat(net: Net, tokens: seq<nat>) returns (x: Row)
    requires InVocab(net, tokens)
    ensures Flat(x, net.Hid(), Embeds(net, tokens))
  {
    x := [];
    var t := 0;
    while t < |tokens|
      invariant t <= |tokens| && Flat(x, net.Hid(), Embeds(net, tokens)[..t])
    {
      var row := Scale(net.ar, net.embd.rows[tokens[t]], net.embedScale);
      assert net.Shaped() && |net.embd.rows[tokens[t]]| == net.Hid();
      FlatAppend(x, net.Hid(), Embeds(net, tokens)[..t], row);
      assert Embeds(net, tokens)[..t] + [row] == Embeds(net, tokens)[..t + 1];
      x := x + row;
      t := t + 1;
    }
    assert Embeds(net, tokens)[..t] == Embeds(net, tokens);
  }

  method ForwardLayer(net: Net, l: nat, x0: Row, layers0: seq<(Row, Row)>, n: nat, q0: nat, ghost hist: seq<nat>, ghost tokens: seq<nat>)
    returns (x: Row, layers: seq<(Row, Row)>)
    requires l < |net.layers| && q0 == |hist| && n == |tokens|
    requires HistoryHolds(net, layers0, hist + tokens, 0, l) && HistoryHolds(net, layers0, hist, l, |net.layers|)
    requires Flat(x0, net.Hid(), Stream(net, hist + tokens, l)[q0..])
    ensures HistoryHolds(net, layers, hist + tokens, 0, l + 1) && HistoryHolds(net, layers, hist, l + 1, |net.layers|)
    ensures Flat(x, net.Hid(), Stream(net, hist + tokens, l + 1)[q0..])
  {
    ghost var toks := hist + tokens;
    KvsAreCausal(net, hist, tokens, l);
    assert net.Shaped() && net.LayerShapes(net.layers[l]);
    var ck, cv;
    x, ck, cv := LayerFlat(net, net.layers[l], x0, layers0[l].0, layers0[l].1, n, q0, Stream(net, toks, l));
    layers := layers0[l := (ck, cv)];
  }

  /** Final norm over all rows, head over the last one only. */
  method HeadFlat(net: Net, x: Row, n: nat, ghost xs: seq<Row>) returns (logits: Row)
    requires 0 < n == |xs| && Flat(x, net.Hid(), xs)
    ensures logits == LogitsOf(net, xs[n - 1])
  {
    var hid := net.Hid();
    var xn := RmsNormRows(net.ar, net.outNorm, hid, x, n, xs);
    var last := HeadOf(xn, n - 1, hid);
    logits := [];
    var i := 0;
    while i < |net.embd.rows|
      invariant i <= |net.embd.rows| && logits == LogitsOf(net, xs[n - 1])[..i]
    {
      logits := logits + [net.ar.softcap(net.ar.dot(net.embd.rows[i], last))];
      i := i + 1;
    }
  }

  /**
    Split invariance, from any common history: feeding `a` then `b` to one cache
    and `a + b` to another leaves bit-identical histories and logits.
   */
  method ForwardInTwo(net: Net, a: seq<nat>, b: seq<nat>, two: CpuKvCache, one: CpuKvCache, ghost hist: seq<nat>) returns (split: Row, whole: Row)
    requires two != one && two.Holds(net, hist) && one.Holds(net, hist)
    requires 0 < |a| && 0 < |b| && InVocab(net, a) && InVocab(net, b)
    modifies two, one
    ensures split == whole && two.layers == one.layers && two.len == one.len
    ensures two.Holds(net, hist + a + b)
  {
    hide HistoryHolds, Logits;
    assert hist + a + b == hist + (a + b);
    split := two.Forward(net, a, hist);
    split := two.Forward(net, b, hist + a);
    whole := one.Forward(net, a + b, hist);
    SameHistory(net, two.layers, one.layers, hist + a + b);
  }

  /** The flat histories a token list leaves behind are unique, byte for byte. */
  lemma SameHistory(net: Net, x: seq<(Row, Row)>, y: seq<(Row, Row)>, toks: seq<nat>)
    requires HistoryHolds(net, x, toks, 0, |net.layers|) && HistoryHolds(net, y, toks, 0, |net.layers|)
    ensures x == y
  {
    forall l | 0 <= l < |net.layers|
      ensures x[l] == y[l]
    {
      var w, kvs := net.KvDim(net.layers[l].kind), LayerKvs(net, toks, l);
      SameFlat(x[l].0, y[l].0, w, |kvs|);
      SameFlat(x[l].1, y[l].1, w, |kvs|);
    }
  }

  lemma SameFlat(x: Row, y: Row, w: nat, n: nat)
    requires |x| == |y| == n * w && forall t | 0 <= t < n :: HeadOf(x, t, w) == HeadOf(y, t, w)
    ensures x == y
  {
    forall i | 0 <= i < |x|
      ensures x[i] == y[i]
    {
      var t, j := i / w, i % w;
      assert i == t * w + j;
      if n <= t {
        Times(n, t, w);
      }
      FlatElem(x, n, w, t, j);
      FlatElem(y, n, w, t, j);
    }
  }
}
