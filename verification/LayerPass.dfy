/** One layer of the fast path: a prefill chunk, or a single decoded token. */
module LayerPass {
  // `xs` is the layer's input stream for the whole conversation (history and the
  // new positions), so `Kvs(net, ly, xs)` is the linear cache the reference model
  // would have and `LayerStep(net, ly, xs)` its output. Neither method sees `xs`:
  // it is ghost, and the padding and stale rows are never constrained.

  import opened Network
  import opened KvStore
  import opened Kernels

  /** `attn_prefill_sliding_ring`, over all `m` padded rows. */
  method AttendRing(net: Net, m: nat, q0: nat, st: Store, a: AttnBufs) returns (out: seq<Row>)
    requires |st.k| == |st.v| == net.window
    requires a.Sized(|a.q|) && m <= |a.q|
    ensures |out| == |a.q|
    ensures forall t | 0 <= t < m :: out[t] == AttendRow(net, Sliding, a.q[t], RingSeen(net, st, a.k, a.v, q0, t))
  {
    out := seq(m, t requires 0 <= t < m => AttendRow(net, Sliding, a.q[t], RingSeen(net, st, a.k, a.v, q0, t))) + a.out[m..];
  }

  /** `attn_prefill_global_flash`, over all `m` padded rows. */
  method AttendLinear(net: Net, m: nat, q0: nat, st: Store, a: AttnBufs) returns (out: seq<Row>)
    requires |st.k| == |st.v|
    requires a.Sized(|a.q|) && m <= |a.q|
    ensures |out| == |a.q|
    ensures forall t | 0 <= t < m :: out[t] == AttendRow(net, Global, a.q[t], LinearSeen(st, q0, t))
  {
    out := seq(m, t requires 0 <= t < m => AttendRow(net, Global, a.q[t], LinearSeen(st, q0, t))) + a.out[m..];
  }

  /** Append the first `n` rows of `k` and `v`, sliced to the real tokens. */
  method AppendRows(net: Net, kind: Kind, cap: nat, n: nat, pos: nat, k: seq<Row>, v: seq<Row>, st: Store, ghost want: seq<(Row, Row)>, ghost more: seq<(Row, Row)>)
    returns (r: Store)
    requires pos == |want| && n == |more| && n <= |k| && n <= |v| && n <= net.window && |want| + n <= cap
    requires Holds(net, kind, cap, st, want)
    requires forall t | 0 <= t < n :: k[t] == more[t].0 && v[t] == more[t].1
    ensures Holds(net, kind, cap, r, want + more)
  {
    if kind.Sliding? {
      var rk := AppendSliding(k, n, pos, st.k);
      var rv := AppendSliding(v, n, pos, st.v);
      r := Store(rk, rv);
      SlidingAppendHolds(net, cap, st, r, want, more);
    } else {
      var rk := AppendGlobal(k, n, pos, st.k);
      var rv := AppendGlobal(v, n, pos, st.v);
      r := Store(rk, rv);
      GlobalAppendHolds(net, cap, st, r, want, more, k[..n], v[..n]);
    }
  }

  lemma ChunkSeesVisible(net: Net, cap: nat, st: Store, k: seq<Row>, v: seq<Row>, want: seq<(Row, Row)>, more: seq<(Row, Row)>)
    requires Holds(net, Sliding, cap, st, want) && |more| <= |k| == |v|
    requires forall j | 0 <= j < |more| :: k[j] == more[j].0 && v[j] == more[j].1
    ensures forall t | 0 <= t < |more| :: RingSeen(net, st, k, v, |want|, t) == Visible(net, Sliding, want + more, |want| + t)
  {
    forall t | 0 <= t < |more|
      ensures RingSeen(net, st, k, v, |want|, t) == Visible(net, Sliding, want + more, |want| + t)
    {
      RingSeenIsVisible(net, cap, st, k, v, want, more, t);
    }
  }

  /** Sliding: the queries read the ring before the chunk overwrites their windows. */
  method AttendThenAppend(net: Net, cap: nat, m: nat, n: nat, q0: nat, a: AttnBufs, st0: Store, ghost want: seq<(Row, Row)>, ghost more: seq<(Row, Row)>)
    returns (out: seq<Row>, st: Store)
    requires a.Sized(|a.q|) && n <= m <= |a.q|
    requires |want| == q0 && |more| == n <= net.window && q0 + n <= cap
    requires Holds(net, Sliding, cap, st0, want)
    requires forall t | 0 <= t < n :: a.k[t] == more[t].0 && a.v[t] == more[t].1
    ensures |out| == |a.q|
    ensures forall t | 0 <= t < n :: out[t] == AttendRow(net, Sliding, a.q[t], Visible(net, Sliding, want + more, q0 + t))
    ensures Holds(net, Sliding, cap, st, want + more)
  {
    assert |st0.k| == |st0.v| == net.window;
    hide Holds, RingSeen, AttendRow, Visible;
    out := AttendRing(net, m, q0, st0, a);
    st := AppendRows(net, Sliding, cap, n, q0, a.k, a.v, st0, want, more);
    ChunkSeesVisible(net, cap, st0, a.k, a.v, want, more);
  }

  /** Global: the linear store must already hold the chunk's own keys. */
  method AppendThenAttend(net: Net, cap: nat, m: nat, n: nat, q0: nat, a: AttnBufs, st0: Store, ghost want: seq<(Row, Row)>, ghost more: seq<(Row, Row)>)
    returns (out: seq<Row>, st: Store)
    requires a.Sized(|a.q|) && n <= m <= |a.q|
    requires |want| == q0 && |more| == n <= net.window && q0 + n <= cap
    requires Holds(net, Global, cap, st0, want)
    requires forall t | 0 <= t < n :: a.k[t] == more[t].0 && a.v[t] == more[t].1
    ensures |out| == |a.q|
    ensures forall t | 0 <= t < n :: out[t] == AttendRow(net, Global, a.q[t], Visible(net, Global, want + more, q0 + t))
    ensures Holds(net, Global, cap, st, want + more)
  {
    st := AppendRows(net, Global, cap, n, q0, a.k, a.v, st0, want, more);
    out := AttendLinear(net, m, q0, st, a);
    forall t | 0 <= t < n
      ensures out[t] == AttendRow(net, Global, a.q[t], Visible(net, Global, want + more, q0 + t))
    {
      LinearSeenIsVisible(net, cap, st, want + more, q0, t);
    }
  }

  method AttendAndAppend(net: Net, kind: Kind, cap: nat, m: nat, n: nat, q0: nat, a: AttnBufs, st0: Store, ghost want: seq<(Row, Row)>, ghost more: seq<(Row, Row)>)
    returns (out: seq<Row>, st: Store)
    requires a.Sized(|a.q|) && n <= m <= |a.q|
    requires |want| == q0 && |more| == n <= net.window && q0 + n <= cap
    requires Holds(net, kind, cap, st0, want)
    requires forall t | 0 <= t < n :: a.k[t] == more[t].0 && a.v[t] == more[t].1
    ensures |out| == |a.q|
    ensures forall t | 0 <= t < n :: out[t] == AttendRow(net, kind, a.q[t], Visible(net, kind, want + more, q0 + t))
    ensures Holds(net, kind, cap, st, want + more)
  {
    hide Holds, AttendRow, Visible;
    if kind.Sliding? {
      out, st := AttendThenAppend(net, cap, m, n, q0, a, st0, want, more);
    } else {
      out, st := AppendThenAttend(net, cap, m, n, q0, a, st0, want, more);
    }
  }

  lemma LayerRow(net: Net, ly: Layer, xs: seq<Row>, p: nat)
    requires p < |xs|
    ensures LayerStep(net, ly, xs)[p]
            == AfterAttention(net, ly, xs[p], AttendRow(net, ly.kind, QueryOf(net, ly, p, xs[p]), Visible(net, ly.kind, Kvs(net, ly, xs), p)))
  {
  }

  /**
    `record_prefill_layer`: `n` real rows of `m`, at positions `q0 ..`. Sliding
    layers attend from ring and chunk and only then append; global layers append first.
   */
  method PrefillRows(net: Net, ly: Layer, cap: nat, m: nat, n: nat, q0: nat, cs: seq<nat>, b0: Bufs, st0: Store, ghost xs: seq<Row>)
    returns (b: Bufs, st: Store)
    requires ly.wv.Some? == ly.kind.Sliding?
    requires n <= m <= b0.n && m <= |cs|
    requires |xs| == q0 + n <= cap && n <= net.window
    requires forall t | 0 <= t < n :: cs[t] == q0 + t && b0.x[t] == xs[q0 + t]
    requires Holds(net, ly.kind, cap, st0, Kvs(net, ly, xs)[..q0])
    ensures b.n == b0.n
    ensures forall t | 0 <= t < n :: b.x[t] == LayerStep(net, ly, xs)[q0 + t]
    ensures Holds(net, ly.kind, cap, st, Kvs(net, ly, xs))
  {
    ghost var kvs := Kvs(net, ly, xs);
    ghost var want, more := kvs[..q0], kvs[q0..];
    assert want + more == kvs;
    hide Holds, AttendRow, Visible, QueryOf, KeyOf, ValueOf, AfterAttention, LayerStep;
    b := Project(net, ly, m, cs, b0);
    var out;
    out, st := AttendAndAppend(net, ly.kind, cap, m, n, q0, b.Of(ly.kind), st0, want, more);
    b := PutOut(b, ly.kind, out);
    b := Finish(net, ly, m, b);
    forall t | 0 <= t < n
      ensures b.x[t] == LayerStep(net, ly, xs)[q0 + t]
    {
      LayerRow(net, ly, xs, q0 + t);
    }
  }

  /** The last position of `kvs` attends over slots in physical order as if over its window in position order. */
  lemma DecodeSeesVisible(net: Net, kind: Kind, cap: nat, kvLen: nat, q: Row, st: Store, kvs: seq<(Row, Row)>)
    requires OrderInvariant(net.ar)
    requires 0 < |kvs| && Holds(net, kind, cap, st, kvs)
    requires kvLen == if kind.Sliding? && net.window < |kvs| then net.window else |kvs|
    ensures |st.k| == |st.v| && kvLen <= |st.k|
    ensures AttendRow(net, kind, q, SlotsSeen(st, kvLen)) == AttendRow(net, kind, q, Visible(net, kind, kvs, |kvs| - 1))
  {
    if kind.Sliding? {
      var r := SlotsAreRotation(net, cap, st, kvs);
      AttendIgnoresRotation(net, kind, q, SlotsSeen(st, kvLen), Visible(net, kind, kvs, |kvs| - 1), r);
    } else {
      LinearSeenIsVisible(net, cap, st, kvs, |kvs| - 1, 0);
      assert SlotsSeen(st, kvLen) == LinearSeen(st, |kvs| - 1, 0);
    }
  }

  /** `record_layer`: one token at `pos`. Both kinds append before attending; a sliding layer reads slots in physical order. */
  method DecodeRow(net: Net, ly: Layer, cap: nat, pos: nat, kvLen: nat, cs: nat, b0: Bufs, st0: Store, ghost xs: seq<Row>)
    returns (b: Bufs, st: Store)
    requires ly.wv.Some? == ly.kind.Sliding? && OrderInvariant(net.ar)
    requires b0.n == 1 && |xs| == pos + 1 <= cap && cs == pos && b0.x[0] == xs[pos]
    requires kvLen == if ly.kind.Sliding? && net.window < pos + 1 then net.window else pos + 1
    requires Holds(net, ly.kind, cap, st0, Kvs(net, ly, xs)[..pos])
    ensures b.n == 1 && b.x[0] == LayerStep(net, ly, xs)[pos]
    ensures Holds(net, ly.kind, cap, st, Kvs(net, ly, xs))
  {
    ghost var kvs := Kvs(net, ly, xs);
    ghost var want, more := kvs[..pos], kvs[pos..];
    assert want + more == kvs;
    hide Holds, AttendRow, Visible, QueryOf, KeyOf, ValueOf, AfterAttention, LayerStep;
    b := Project(net, ly, 1, [cs], b0);
    var a := b.Of(ly.kind);
    st := AppendRows(net, ly.kind, cap, 1, pos, a.k, a.v, st0, want, more);
    DecodeSeesVisible(net, ly.kind, cap, kvLen, a.q[0], st, kvs);
    b := PutOut(b, ly.kind, [AttendRow(net, ly.kind, a.q[0], SlotsSeen(st, kvLen))]);
    b := Finish(net, ly, 1, b);
    LayerRow(net, ly, xs, pos);
  }
}
