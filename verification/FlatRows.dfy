/**
  Token-major flat vectors, the layout of the reference model: `n` rows of
  width `w` stored as one vector of `n * w` floats.

  `Flat(x, w, rows)` says that a vector holds those rows; `FlatKv` says it of a
  pair of key and value histories. The lemmas carry both through appending,
  element-wise operations and head-by-head writing.
 */
module FlatRows {
  import opened Network
  import opened Kernels

  /** `x` stores exactly `rows`, each of width `w`. */
  ghost predicate Flat(x: Row, w: nat, rows: seq<Row>) {
    |x| == |rows| * w && forall t | 0 <= t < |rows| :: HeadOf(x, t, w) == rows[t]
  }

  /** `ck`, `cv` store the (K, V) pairs `kvs`. */
  ghost predicate FlatKv(ck: Row, cv: Row, w: nat, kvs: seq<(Row, Row)>) {
    && |ck| == |cv| == |kvs| * w
    && forall p | 0 <= p < |kvs| :: HeadOf(ck, p, w) == kvs[p].0 && HeadOf(cv, p, w) == kvs[p].1
  }

  lemma FlatAppend(x: Row, w: nat, rows: seq<Row>, r: Row)
    requires Flat(x, w, rows) && |r| == w
    ensures Flat(x + r, w, rows + [r])
  {
    var all := rows + [r];
    assert |all| * w == |rows| * w + w;
    forall t | 0 <= t < |all|
      ensures HeadOf(x + r, t, w) == all[t]
    {
      if t < |rows| {
        HeadFits(t, |rows|, w);
        HeadOfPrefix(x, r, t, w);
      } else {
        HeadOfAppended(x, r, t, w);
      }
    }
  }

  lemma FlatKvAppend(ck: Row, cv: Row, w: nat, a: seq<(Row, Row)>, k: Row, v: Row, ks: seq<Row>, vs: seq<Row>, b: seq<(Row, Row)>)
    requires FlatKv(ck, cv, w, a) && Flat(k, w, ks) && Flat(v, w, vs)
    requires |ks| == |vs| == |b| && forall t | 0 <= t < |b| :: b[t] == (ks[t], vs[t])
    ensures FlatKv(ck + k, cv + v, w, a + b)
  {
    var all := a + b;
    assert |all| * w == |a| * w + |b| * w;
    forall p | 0 <= p < |all|
      ensures HeadOf(ck + k, p, w) == all[p].0 && HeadOf(cv + v, p, w) == all[p].1
    {
      if p < |a| {
        HeadFits(p, |a|, w);
        HeadOfPrefix(ck, k, p, w);
        HeadOfPrefix(cv, v, p, w);
      } else {
        HeadOfSuffix(ck, k, |a|, p - |a|, w);
        HeadOfSuffix(cv, v, |a|, p - |a|, w);
      }
    }
  }

  lemma HeadOfSuffix(x: Row, y: Row, n: nat, t: nat, w: nat)
    requires |x| == n * w
    ensures HeadOf(x + y, n + t, w) == HeadOf(y, t, w)
  {
    var a, b := HeadOf(x + y, n + t, w), HeadOf(y, t, w);
    assert (n + t) * w == n * w + t * w;
    forall j | 0 <= j < w
      ensures a[j] == b[j]
    {
      assert a[j] == At(x + y, |x| + (t * w + j)) && b[j] == At(y, t * w + j);
    }
  }

  /** Head `h` of row `t` is flat chunk `t * n + h`. */
  lemma NestedHead(x: Row, t: nat, n: nat, h: nat, hd: nat)
    requires h < n
    ensures HeadOf(HeadOf(x, t, n * hd), h, hd) == HeadOf(x, t * n + h, hd)
  {
    var row, b := HeadOf(x, t, n * hd), HeadOf(x, t * n + h, hd);
    var a := HeadOf(row, h, hd);
    assert (t * n + h) * hd == t * (n * hd) + h * hd;
    HeadFits(h, n, hd);
    forall j | 0 <= j < hd
      ensures a[j] == b[j]
    {
      assert a[j] == row[h * hd + j];
    }
  }

  lemma NestedElem(x: Row, t: nat, n: nat, h: nat, hd: nat, j: nat)
    requires h < n && j < hd
    ensures At(HeadOf(x, t, n * hd), h * hd + j) == HeadOf(x, t * n + h, hd)[j]
  {
    NestedHead(x, t, n, h, hd);
    assert HeadOf(HeadOf(x, t, n * hd), h, hd)[j] == At(HeadOf(x, t, n * hd), h * hd + j);
  }

  // ------------------------------------------- elementwise passes over rows

  lemma FlatElem(x: Row, n: nat, w: nat, t: nat, j: nat)
    requires |x| == n * w && t < n && j < w
    ensures t * w + j < |x| && HeadOf(x, t, w)[j] == x[t * w + j]
  {
    HeadFits(t, n, w);
    assert HeadOf(x, t, w)[j] == At(x, t * w + j);
  }

  lemma FlatAdd(ar: Arith, x: Row, y: Row, w: nat, xs: seq<Row>, ys: seq<Row>)
    requires Flat(x, w, xs) && Flat(y, w, ys) && |xs| == |ys|
    ensures Flat(AddRow(ar, x, y), w, seq(|xs|, t requires 0 <= t < |xs| => AddRow(ar, xs[t], ys[t])))
  {
    var r := AddRow(ar, x, y);
    forall t | 0 <= t < |xs|
      ensures HeadOf(r, t, w) == AddRow(ar, xs[t], ys[t])
    {
      var a, b, c := HeadOf(r, t, w), HeadOf(x, t, w), HeadOf(y, t, w);
      forall j | 0 <= j < w
        ensures a[j] == ar.add(b[j], At(c, j))
      {
        FlatElem(r, |xs|, w, t, j);
        FlatElem(x, |xs|, w, t, j);
        FlatElem(y, |xs|, w, t, j);
      }
    }
  }

  lemma FlatScale(ar: Arith, x: Row, s: Float, w: nat, xs: seq<Row>)
    requires Flat(x, w, xs)
    ensures Flat(ScaleRow(ar, x, s), w, seq(|xs|, t requires 0 <= t < |xs| => ScaleRow(ar, xs[t], s)))
  {
    var r := ScaleRow(ar, x, s);
    forall t | 0 <= t < |xs|
      ensures HeadOf(r, t, w) == ScaleRow(ar, xs[t], s)
    {
      var a, b := HeadOf(r, t, w), HeadOf(x, t, w);
      forall j | 0 <= j < w
        ensures a[j] == ar.mul(b[j], s)
      {
        FlatElem(r, |xs|, w, t, j);
        FlatElem(x, |xs|, w, t, j);
      }
    }
  }

  lemma FlatGeglu(ar: Arith, g: Row, u: Row, w: nat, gs: seq<Row>, us: seq<Row>)
    requires Flat(g, w, gs) && Flat(u, w, us) && |gs| == |us|
    ensures Flat(GegluRow(ar, g, u), w, seq(|gs|, t requires 0 <= t < |gs| => GegluRow(ar, gs[t], us[t])))
  {
    var r := GegluRow(ar, g, u);
    forall t | 0 <= t < |gs|
      ensures HeadOf(r, t, w) == GegluRow(ar, gs[t], us[t])
    {
      var a, b, c := HeadOf(r, t, w), HeadOf(g, t, w), HeadOf(u, t, w);
      forall j | 0 <= j < w
        ensures a[j] == ar.mul(ar.gelu(b[j]), c[j])
      {
        FlatElem(r, |gs|, w, t, j);
        FlatElem(g, |gs|, w, t, j);
        FlatElem(u, |gs|, w, t, j);
      }
    }
  }

  // ------------------------------------------------------ chunks to rows

  /** Concatenation. */
  function Cat(cs: seq<Row>): Row {
    if cs == [] then [] else Cat(cs[..|cs| - 1]) + cs[|cs| - 1]
  }

  lemma CatPush(cs: seq<Row>, c: Row)
    ensures Cat(cs + [c]) == Cat(cs) + c
  {
    assert (cs + [c])[..|cs|] == cs;
  }

  lemma {:induction false} CatSplit(a: seq<Row>, b: seq<Row>)
    ensures Cat(a + b) == Cat(a) + Cat(b)
    decreases |b|
  {
    if b == [] {
      assert a + b == a;
    } else {
      var init, last := b[..|b| - 1], b[|b| - 1];
      CatSplit(a, init);
      CatPush(a + init, last);
      CatPush(init, last);
      hide Cat;
      assert a + b == (a + init) + [last] && b == init + [last];
      assert Cat(a) + Cat(init) + last == Cat(a) + (Cat(init) + last);
    }
  }

  lemma {:induction false} CatLength(cs: seq<Row>, hd: nat)
    requires forall i | 0 <= i < |cs| :: |cs[i]| == hd
    ensures |Cat(cs)| == |cs| * hd
    decreases |cs|
  {
    if cs != [] {
      CatLength(cs[..|cs| - 1], hd);
      assert |cs| * hd == (|cs| - 1) * hd + hd;
    }
  }

  /** `n` chunks to a row. */
  ghost predicate InChunks(cs: seq<Row>, n: nat, hd: nat, rows: seq<Row>) {
    && |cs| == |rows| * n
    && (forall i | 0 <= i < |cs| :: |cs[i]| == hd)
    && forall t | 0 <= t < |rows| :: t * n + n <= |cs| && rows[t] == Cat(cs[t * n..t * n + n])
  }

  lemma ChunksInit(cs: seq<Row>, n: nat, hd: nat, m: nat, rows: seq<Row>)
    requires InChunks(cs, n, hd, rows) && |rows| == m + 1
    ensures m * n + n == |cs| && InChunks(cs[..m * n], n, hd, rows[..m])
    ensures Cat(cs[m * n..]) == rows[m] && forall i | m * n <= i < |cs| :: |cs[i]| == hd
  {
    hide Cat;
    assert (m + 1) * n == m * n + n;
    forall t | 0 <= t < m
      ensures t * n + n <= m * n && cs[..m * n][t * n..t * n + n] == cs[t * n..t * n + n]
    {
      HeadFits(t, m, n);
    }
    assert cs[m * n..] == cs[m * n..m * n + n];
  }

  /** Head chunks written one after another are the rows. */
  lemma {:induction false} CatRows(cs: seq<Row>, n: nat, hd: nat, tokens: nat, rows: seq<Row>)
    requires |rows| == tokens && InChunks(cs, n, hd, rows)
    ensures Flat(Cat(cs), n * hd, rows)
    decreases tokens
  {
    if tokens == 0 {
      NoChunks(cs, n, hd, rows);
    } else {
      hide InChunks, Flat, Cat;
      var last := tokens - 1;
      ChunksInit(cs, n, hd, last, rows);
      var init, tail := cs[..last * n], cs[last * n..];
      CatRows(init, n, hd, last, rows[..last]);
      assert init + tail == cs;
      CatSplit(init, tail);
      CatLength(tail, hd);
      FlatAppend(Cat(init), n * hd, rows[..last], rows[last]);
      assert rows[..last] + [rows[last]] == rows;
    }
  }

  lemma NoChunks(cs: seq<Row>, n: nat, hd: nat, rows: seq<Row>)
    requires rows == [] && InChunks(cs, n, hd, rows)
    ensures Flat(Cat(cs), n * hd, rows)
  {
    assert 0 * n == 0 && cs == [];
  }
}
