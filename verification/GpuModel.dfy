/** The GPU forward path: chunked prefill and single-token decode over resident KV stores. */
module GpuModels {
  // Its contracts mention only the tokens fed since the last reset, so padding rows,
  // stale activation rows and stale KV rows cannot matter.

  import opened Arithmetic
  import opened Network
  import opened KvStore
  import opened Kernels
  import opened LayerPass
  import opened Graphs

  datatype StepState = StepState(pos: nat, kvLenSliding: nat, kvLenGlobal: nat, q0: nat)

  function PadTo64(n: nat): (m: nat)
    ensures n <= m < n + 64 && m % 64 == 0
  {
    (n + 63) / 64 * 64
  }

  /** Layers `lo .. hi` hold what the linear cache would hold for `toks`. */
  ghost predicate LayersHold(net: Net, cap: nat, kv: seq<Store>, toks: seq<nat>, lo: nat, hi: nat)
    requires |kv| == |net.layers|
  {
    hi <= |kv| && forall l | lo <= l < hi :: Holds(net, net.layers[l].kind, cap, kv[l], LayerKvs(net, toks, l))
  }

  ghost predicate AllSized(net: Net, cap: nat, kv: seq<Store>)
  {
    |kv| == |net.layers| && forall l | 0 <= l < |kv| :: Sized(net, net.layers[l].kind, cap, kv[l])
  }

  /** Mid-pass: layers below `l` are done for `toks`, the others still hold its first `q0` tokens. */
  ghost predicate Between(net: Net, cap: nat, kv: seq<Store>, toks: seq<nat>, q0: nat, l: nat)
  {
    && AllSized(net, cap, kv) && q0 <= |toks| <= cap
    && LayersHold(net, cap, kv, toks, 0, l)
    && LayersHold(net, cap, kv, toks[..q0], l, |kv|)
  }

  /** The chunk's `n` real rows carry the stream entering layer `l`. */
  ghost predicate RowsAt(net: Net, x: seq<Row>, cs: seq<nat>, toks: seq<nat>, q0: nat, n: nat, l: nat)
    requires l <= |net.layers|
  {
    && q0 + n == |toks| && n <= |x| && n <= |cs|
    && (forall t | 0 <= t < n :: cs[t] == q0 + t)
    && (forall t | 0 <= t < n :: x[t] == Stream(net, toks, l)[q0 + t])
  }

  /** The decoded token's row carries the last position of the stream entering layer `l`. */
  ghost predicate TokenRow(net: Net, x: seq<Row>, cs: nat, toks: seq<nat>, l: nat)
    requires l <= |net.layers|
  {
    0 < |toks| && |x| == 1 && cs == |toks| - 1 && x[0] == Stream(net, toks, l)[|toks| - 1]
  }

  // ------------------------------------------------------------ one layer

  lemma BeforeLayer(net: Net, cap: nat, kv: seq<Store>, toks: seq<nat>, q0: nat, l: nat)
    requires Between(net, cap, kv, toks, q0, l) && l < |kv|
    ensures Holds(net, net.layers[l].kind, cap, kv[l], Kvs(net, net.layers[l], Stream(net, toks, l))[..q0])
    ensures net.layers[l].wv.Some? == net.layers[l].kind.Sliding?
    ensures q0 <= |toks| <= cap && |kv| == |net.layers|
    ensures Stream(net, toks, l + 1) == LayerStep(net, net.layers[l], Stream(net, toks, l))
    ensures LayerKvs(net, toks, l) == Kvs(net, net.layers[l], Stream(net, toks, l))
  {
    assert toks == toks[..q0] + toks[q0..];
    KvsAreCausal(net, toks[..q0], toks[q0..], l);
    assert net.Shaped() && net.LayerShapes(net.layers[l]);
  }

  lemma AfterLayer(net: Net, cap: nat, kv: seq<Store>, toks: seq<nat>, q0: nat, l: nat, st: Store)
    requires Between(net, cap, kv, toks, q0, l) && l < |kv|
    requires Holds(net, net.layers[l].kind, cap, st, LayerKvs(net, toks, l))
    ensures Between(net, cap, kv[l := st], toks, q0, l + 1) && AllSized(net, cap, kv[l := st])
  {
    hide LayerKvs;
  }

  datatype RawConfig = RawConfig(net: Net, globalCap: nat, maxChunk: nat)

  /**
    How a model was built. That a chunk fits the ring, which the code does not
    check, is part of the type.
   */
  type Config = c: RawConfig | 0 < c.maxChunk <= c.net.window && c.maxChunk % 64 == 0
    ghost witness RawConfig(WideNet(), 0, 64)

  ghost function WideNet(): (n: Net)
    ensures n.window == 64
  {
    RawNet(TINY_ARITH, 1, Geometry(1, 1), Geometry(1, 1), 64, Mat([]), Float(0), [TINY_LAYER], [])
  }

  class GpuModel {
    const cfg: Config
    var p: Bufs
    var b: Bufs
    var csP: seq<nat>
    var csB: nat
    var kv: seq<Store>
    var step: StepState
    var logits: Row
    var graphs: map<Key, seq<Graph>>
    var pos: nat

    /** Shapes only; says nothing about what any buffer contains. */
    ghost predicate Valid()
      reads this
    {
      && p.n == cfg.maxChunk && b.n == 1 && |csP| == cfg.maxChunk
      && AllSized(cfg.net, cfg.globalCap, kv)
      && (forall key | key in graphs :: Concat(graphs[key]) == PrefillCmds(|cfg.net.layers|, key))
    }

    /** The model is where it would be after `toks` since the last reset. */
    ghost predicate Resident(toks: seq<nat>)
      reads this
    {
      && Valid() && pos == |toks| <= cfg.globalCap
      && LayersHold(cfg.net, cfg.globalCap, kv, toks, 0, |kv|)
    }

    ghost predicate ChunkAt(toks: seq<nat>, q0: nat, n: nat, l: nat)
      reads this
    {
      && Valid() && Between(cfg.net, cfg.globalCap, kv, toks, q0, l)
      && step.q0 == q0 && step.pos == q0 && n <= cfg.maxChunk
      && RowsAt(cfg.net, p.x, csP, toks, q0, n, l)
    }

    ghost predicate TokenAt(toks: seq<nat>, q0: nat, l: nat)
      reads this
    {
      && |toks| == q0 + 1 && Valid() && Between(cfg.net, cfg.globalCap, kv, toks, q0, l)
      && step.pos == q0
      && step.kvLenSliding == (if cfg.net.window < |toks| then cfg.net.window else |toks|)
      && step.kvLenGlobal == |toks|
      && TokenRow(cfg.net, b.x, csB, toks, l)
    }

    /** Allocation: buffer contents are arbitrary. */
    constructor (cfg: Config, p: Bufs, b: Bufs, kv: seq<Store>)
      requires AllSized(cfg.net, cfg.globalCap, kv) && p.n == cfg.maxChunk && b.n == 1
      ensures Resident([]) && this.cfg == cfg
    {
      this.cfg, this.p, this.b, this.kv := cfg, p, b, kv;
      csP, csB := seq(cfg.maxChunk, _ => 0), 0;
      step, logits, graphs, pos := StepState(0, 0, 0, 0), [], map[], 0;
      new;
      AnyStoreHoldsNothing(cfg.net, cfg.globalCap, kv);
    }

    /** `reset` forgets nothing physically, yet leaves the state of an empty conversation. */
    method Reset()
      requires Valid()
      modifies this`pos
      ensures Resident([])
    {
      pos := 0;
      AnyStoreHoldsNothing(cfg.net, cfg.globalCap, kv);
    }

    method StagePrefillChunk(tokens: seq<nat>, ghost hist: seq<nat>)
      requires Resident(hist) && |tokens| <= cfg.maxChunk && |hist| + |tokens| <= cfg.globalCap
      modifies this`p, this`step, this`csP
      ensures ChunkAt(hist + tokens, |hist|, |tokens|, 0) && step.kvLenSliding == step.kvLenGlobal == 0
    {
      var x, cs := EmbedRows(cfg.net, pos, tokens, p.x, csP);
      p := p.(x := x);
      csP := cs;
      step := StepState(pos, 0, 0, pos);
      Staged(cfg.net, cfg.globalCap, kv, hist, tokens, x, cs);
    }

    method StageToken(token: nat, ghost hist: seq<nat>)
      requires Resident(hist) && |hist| < cfg.globalCap
      modifies this`b, this`step, this`csB
      ensures TokenAt(hist + [token], |hist|, 0) && step.q0 == 0
    {
      b := b.(x := [EmbedRow(cfg.net, token)]);
      step := StepState(pos, if pos + 1 < cfg.net.window then pos + 1 else cfg.net.window, pos + 1, 0);
      csB := pos;
      Staged(cfg.net, cfg.globalCap, kv, hist, [token], [b.x[0]], [csB]);
      assert b.x[0] == Stream(cfg.net, hist + [token], 0)[|hist|];
    }

    /** One recorded prefill layer carries the whole chunk one layer on. */
    method RunPrefillLayer(l: nat, mPad: nat, n: nat, ghost toks: seq<nat>, ghost q0: nat)
      requires ChunkAt(toks, q0, n, l) && l < |kv| && n <= mPad <= cfg.maxChunk
      modifies this`p, this`kv
      ensures ChunkAt(toks, q0, n, l + 1)
    {
      hide Between, RowsAt, PrefillCmds, Concat;
      p, kv := PrefillStores(cfg.net, cfg.globalCap, mPad, n, step.q0, csP, p, kv, l, toks);
    }

    method RunDecodeLayer(l: nat, ghost toks: seq<nat>, ghost q0: nat, ghost a: nat)
      requires TokenAt(toks, q0, a) && l == a < |kv| && OrderInvariant(cfg.net.ar)
      modifies this`b, this`kv
      ensures TokenAt(toks, q0, a + 1)
    {
      hide Between, TokenRow, PrefillCmds, Concat;
      b, kv := DecodeStores(cfg.net, cfg.globalCap, step, csB, b, kv, l, toks, q0);
    }

    /** Final norm and head over the chunk's last real row; the norm goes through the decode-side scratch row. */
    method RunPrefillLogits(n: nat, ghost toks: seq<nat>, ghost q0: nat)
      requires ChunkAt(toks, q0, n, |cfg.net.layers|) && 0 < n
      modifies this`b, this`logits
      ensures ChunkAt(toks, q0, n, |cfg.net.layers|) && 0 < |toks| && logits == Logits(cfg.net, toks)
    {
      hide Between, Stream, LogitsOf, AllSized, PrefillCmds, Concat;
      b := b.(xn := [p.x[n - 1]]);
      logits := LogitsOf(cfg.net, b.xn[0]);
    }

    method RunDecodeLogits(ghost toks: seq<nat>, ghost q0: nat)
      requires TokenAt(toks, q0, |cfg.net.layers|)
      modifies this`b, this`logits
      ensures TokenAt(toks, q0, |cfg.net.layers|) && 0 < |toks| && logits == Logits(cfg.net, toks)
    {
      hide Between, Stream, LogitsOf, AllSized, PrefillCmds, Concat;
      b := b.(xn := [b.x[0]]);
      logits := LogitsOf(cfg.net, b.xn[0]);
    }

    /** After the first `a` commands of the chunk's graphs. */
    ghost predicate Progress(toks: seq<nat>, q0: nat, n: nat, a: nat)
      reads this
    {
      if a <= |cfg.net.layers| then ChunkAt(toks, q0, n, a)
      else ChunkAt(toks, q0, n, |cfg.net.layers|) && 0 < |toks| && logits == Logits(cfg.net, toks)
    }

    method RunCmd(cmd: Cmd, ghost key: Key, ghost toks: seq<nat>, ghost q0: nat, ghost a: nat)
      requires Progress(toks, q0, key.nReal, a) && 0 < key.nReal <= key.mPad <= cfg.maxChunk
      requires a < |PrefillCmds(|cfg.net.layers|, key)| && cmd == PrefillCmds(|cfg.net.layers|, key)[a]
      modifies this`p, this`kv, this`b, this`logits
      ensures Progress(toks, q0, key.nReal, a + 1)
    {
      hide ChunkAt, Logits;
      assert |kv| == |cfg.net.layers| by { KvCount(toks, q0, key.nReal, a); }
      match cmd
      case PrefillLayer(l, mPad, n) => RunPrefillLayer(l, mPad, n, toks, q0);
      case PrefillLogits(n) => RunPrefillLogits(n, toks, q0);
      case DecodeLayer(_) =>
      case DecodeLogits =>
    }

    lemma KvCount(toks: seq<nat>, q0: nat, n: nat, a: nat)
      requires Progress(toks, q0, n, a)
      ensures |kv| == |cfg.net.layers|
    {
    }

    /** Submitting one segment. */
    method RunSegment(seg: Graph, ghost key: Key, ghost toks: seq<nat>, ghost q0: nat, ghost a: nat)
      requires Progress(toks, q0, key.nReal, a) && 0 < key.nReal <= key.mPad <= cfg.maxChunk
      requires a + |seg| <= |PrefillCmds(|cfg.net.layers|, key)| && seg == PrefillCmds(|cfg.net.layers|, key)[a..a + |seg|]
      modifies this`p, this`kv, this`b, this`logits
      ensures Progress(toks, q0, key.nReal, a + |seg|)
    {
      hide Progress, PrefillCmds;
      var i := 0;
      while i < |seg|
        invariant i <= |seg|
        invariant Progress(toks, q0, key.nReal, a + i)
      {
        RunCmd(seg[i], key, toks, q0, a + i);
        i := i + 1;
      }
    }

    method SubmitAll(segments: seq<Graph>, ghost key: Key, ghost toks: seq<nat>, ghost q0: nat)
      requires Concat(segments) == PrefillCmds(|cfg.net.layers|, key)
      requires Progress(toks, q0, key.nReal, Before(segments, 0)) && 0 < key.nReal <= key.mPad <= cfg.maxChunk
      modifies this`p, this`kv, this`b, this`logits
      ensures Progress(toks, q0, key.nReal, Before(segments, |segments|))
    {
      hide Progress, PrefillCmds, Before, Concat;
      var s := 0;
      while s < |segments|
        invariant s <= |segments|
        invariant Progress(toks, q0, key.nReal, Before(segments, s))
      {
        SegmentAt(segments, s);
        RunSegment(segments[s], key, toks, q0, Before(segments, s));
        s := s + 1;
      }
    }

    /** Submitting all segments of a chunk in order. */
    method RunSegments(segments: seq<Graph>, ghost key: Key, ghost toks: seq<nat>, ghost q0: nat)
      requires Concat(segments) == PrefillCmds(|cfg.net.layers|, key)
      requires ChunkAt(toks, q0, key.nReal, 0) && 0 < key.nReal <= key.mPad <= cfg.maxChunk
      modifies this`p, this`kv, this`b, this`logits
      ensures ChunkAt(toks, q0, key.nReal, |cfg.net.layers|)
      ensures key.mode.LastLogits? ==> 0 < |toks| && logits == Logits(cfg.net, toks)
    {
      BeforeEnds(segments);
      assert Progress(toks, q0, key.nReal, Before(segments, 0));
      SubmitAll(segments, key, toks, q0);
    }

    /** One recording per chunk shape, kept for later chunks of the same shape. */
    method GraphFor(key: Key) returns (segments: seq<Graph>)
      requires Valid()
      modifies this`graphs
      ensures Valid() && Concat(segments) == PrefillCmds(|cfg.net.layers|, key)
      ensures key in old(graphs) ==> graphs == old(graphs) && segments == old(graphs)[key]
    {
      if key !in graphs {
        var g := RecordPrefill(|cfg.net.layers|, key);
        graphs := graphs[key := g];
      }
      segments := graphs[key];
    }

    lemma ChunkDone(toks: seq<nat>, q0: nat, n: nat)
      requires ChunkAt(toks, q0, n, |cfg.net.layers|)
      ensures |kv| == |cfg.net.layers| && LayersHold(cfg.net, cfg.globalCap, kv, toks, 0, |kv|) && |toks| == q0 + n <= cfg.globalCap
    {
    }

    /** The shared body of every prefill loop: stage, submit, advance. */
    method RunChunk(chunk: seq<nat>, mode: LogitsMode, ghost hist: seq<nat>)
      requires Resident(hist) && 0 < |chunk| <= cfg.maxChunk && |hist| + |chunk| <= cfg.globalCap
      modifies this
      ensures Resident(hist + chunk)
      ensures mode.LastLogits? ==> logits == Logits(cfg.net, hist + chunk)
    {
      hide Between, RowsAt, AllSized, PrefillCmds, Concat, Logits;
      StageAndSubmit(chunk, mode, hist);
      ChunkDone(hist + chunk, |hist|, |chunk|);
      pos := pos + |chunk|;
    }

    method StageAndSubmit(chunk: seq<nat>, mode: LogitsMode, ghost hist: seq<nat>)
      requires Resident(hist) && 0 < |chunk| <= cfg.maxChunk && |hist| + |chunk| <= cfg.globalCap
      modifies this`graphs, this`p, this`step, this`csP, this`kv, this`b, this`logits
      ensures ChunkAt(hist + chunk, |hist|, |chunk|, |cfg.net.layers|)
      ensures mode.LastLogits? ==> logits == Logits(cfg.net, hist + chunk)
    {
      hide Between, RowsAt, AllSized, LayersHold, PrefillCmds, Concat, Logits;
      var key := Key(PadTo64(|chunk|), |chunk|, mode);
      var segments := GraphFor(key);
      StagePrefillChunk(chunk, hist);
      RunSegments(segments, key, hist + chunk, |hist|);
    }

    /** `prefill`: any prompt, cut into chunks, leaves and returns what one linear pass would. */
    method Prefill(tokens: seq<nat>, ghost hist: seq<nat>) returns (out: Row)
      requires Resident(hist) && 0 < |tokens| && |hist| + |tokens| <= cfg.globalCap
      modifies this
      ensures Resident(hist + tokens) && out == Logits(cfg.net, hist + tokens)
    {
      hide Resident, Logits, Valid, Offset;
      var nChunks := (|tokens| + cfg.maxChunk - 1) / cfg.maxChunk;
      var ci, lo := 0, 0;
      FirstOffset(cfg.maxChunk);
      assert hist + tokens[..0] == hist;
      while lo < |tokens|
        invariant lo <= |tokens| && (lo < |tokens| ==> lo == Offset(ci, cfg.maxChunk))
        invariant Resident(hist + tokens[..lo])
        invariant lo == |tokens| ==> logits == Logits(cfg.net, hist + tokens)
        decreases |tokens| - lo
      {
        var hi := if lo + cfg.maxChunk < |tokens| then lo + cfg.maxChunk else |tokens|;
        LastChunk(|tokens|, cfg.maxChunk, ci);
        assert hist + tokens[..lo] + tokens[lo..hi] == hist + tokens[..hi];
        RunChunk(tokens[lo..hi], if ci == nChunks - 1 then LastLogits else NoLogits, hist + tokens[..lo]);
        assert hi == |tokens| ==> tokens[..hi] == tokens;
        lo, ci := hi, ci + 1;
      }
      assert tokens[..lo] == tokens;
      out := logits;
    }

    /** `prefill_plain`: the same chunks without the head. */
    method PrefillPlain(tokens: seq<nat>, ghost hist: seq<nat>)
      requires Resident(hist) && |hist| + |tokens| <= cfg.globalCap
      modifies this
      ensures Resident(hist + tokens)
    {
      var lo := 0;
      assert hist + tokens[..0] == hist;
      while lo < |tokens|
        invariant lo <= |tokens|
        invariant Resident(hist + tokens[..lo])
        decreases |tokens| - lo
      {
        var hi := if lo + cfg.maxChunk < |tokens| then lo + cfg.maxChunk else |tokens|;
        assert hist + tokens[..lo] + tokens[lo..hi] == hist + tokens[..hi];
        RunChunk(tokens[lo..hi], NoLogits, hist + tokens[..lo]);
        lo := hi;
      }
      assert tokens[..lo] == tokens;
    }

    /** After the first `a` commands of the decode graph. */
    ghost predicate DecodeProgress(toks: seq<nat>, q0: nat, a: nat)
      reads this
    {
      if a <= |cfg.net.layers| then TokenAt(toks, q0, a)
      else TokenAt(toks, q0, |cfg.net.layers|) && 0 < |toks| && logits == Logits(cfg.net, toks)
    }

    method RunDecodeCmd(cmd: Cmd, ghost toks: seq<nat>, ghost q0: nat, ghost a: nat)
      requires DecodeProgress(toks, q0, a) && a <= |cfg.net.layers| && cmd == DecodeCmds(|cfg.net.layers|)[a]
      requires OrderInvariant(cfg.net.ar)
      modifies this`b, this`kv, this`logits
      ensures DecodeProgress(toks, q0, a + 1) == true  // compared, so that the verifier keeps it folded
    {
      hide DecodeProgress, TokenAt, Logits;
      StagedSoFar(toks, q0, a);
      match cmd
      case DecodeLayer(l) =>
        RunDecodeLayer(l, toks, q0, a);
        LayerDone(toks, q0, a + 1);
      case DecodeLogits =>
        RunDecodeLogits(toks, q0);
        LogitsDone(toks, q0);
      case PrefillLayer(_, _, _) =>
      case PrefillLogits(_) =>
    }

    /** Submitting the decode graph for a staged token. */
    method SubmitDecode(graph: Graph, ghost toks: seq<nat>, ghost q0: nat)
      requires DecodeProgress(toks, q0, 0) && graph == DecodeCmds(|cfg.net.layers|) && OrderInvariant(cfg.net.ar)
      modifies this`b, this`kv, this`logits
      ensures DecodeProgress(toks, q0, |cfg.net.layers| + 1)
    {
      hide DecodeProgress;
      var i := 0;
      while i < |graph|
        invariant i <= |graph| && DecodeProgress(toks, q0, i)
      {
        RunDecodeCmd(graph[i], toks, q0, i);
        i := i + 1;
      }
    }

    lemma StagedSoFar(toks: seq<nat>, q0: nat, a: nat)
      requires a <= |cfg.net.layers| && DecodeProgress(toks, q0, a)
      ensures TokenAt(toks, q0, a) && |kv| == |cfg.net.layers|
    {
    }

    lemma LayerDone(toks: seq<nat>, q0: nat, a: nat)
      requires a <= |cfg.net.layers| && TokenAt(toks, q0, a)
      ensures DecodeProgress(toks, q0, a)
    {
    }

    lemma LogitsDone(toks: seq<nat>, q0: nat)
      requires TokenAt(toks, q0, |cfg.net.layers|) && 0 < |toks| && logits == Logits(cfg.net, toks)
      ensures DecodeProgress(toks, q0, |cfg.net.layers| + 1)
    {
    }

    lemma TokenDone(toks: seq<nat>, q0: nat)
      requires TokenAt(toks, q0, |cfg.net.layers|)
      ensures |kv| == |cfg.net.layers| && LayersHold(cfg.net, cfg.globalCap, kv, toks, 0, |kv|) && 0 < |toks| <= cfg.globalCap
    {
    }

    /** `decode_step`: stage, submit, advance, read. The ring is read in slot order, so attention must not depend on the order. */
    method DecodeStep(graph: Graph, token: nat, ghost hist: seq<nat>) returns (out: Row)
      requires Resident(hist) && |hist| < cfg.globalCap && graph == DecodeCmds(|cfg.net.layers|) && OrderInvariant(cfg.net.ar)
      modifies this
      ensures Resident(hist + [token]) && out == Logits(cfg.net, hist + [token])
    {
      StageToken(token, hist);
      SubmitDecode(graph, hist + [token], |hist|);
      TokenDone(hist + [token], |hist|);
      pos := pos + 1;
      out := logits;
    }
  }

  method PrefillStores(net: Net, cap: nat, mPad: nat, n: nat, q0: nat, cs: seq<nat>, b0: Bufs, kv0: seq<Store>, l: nat, ghost toks: seq<nat>)
    returns (b: Bufs, kv: seq<Store>)
    requires Between(net, cap, kv0, toks, q0, l) && l < |kv0|
    requires RowsAt(net, b0.x, cs, toks, q0, n, l)
    requires n <= mPad <= b0.n && mPad <= |cs| && n <= net.window
    ensures Between(net, cap, kv, toks, q0, l + 1) && AllSized(net, cap, kv) && b.n == b0.n
    ensures RowsAt(net, b.x, cs, toks, q0, n, l + 1)
  {
    BeforeLayer(net, cap, kv0, toks, q0, l);
    hide Holds, LayerStep, Kvs, LayersHold, Between, LayerKvs, AllSized;
    var st;
    b, st := PrefillRows(net, net.layers[l], cap, mPad, n, q0, cs, b0, kv0[l], Stream(net, toks, l));
    AfterLayer(net, cap, kv0, toks, q0, l, st);
    kv := kv0[l := st];
  }

  /** One decoded layer, on that layer's store alone. */
  method DecodeOne(net: Net, cap: nat, step: StepState, cs: nat, b0: Bufs, st0: Store, l: nat, ghost toks: seq<nat>)
    returns (b: Bufs, st: Store)
    requires l < |net.layers| && OrderInvariant(net.ar) && |toks| <= cap
    requires TokenRow(net, b0.x, cs, toks, l) && b0.n == 1
    requires net.layers[l].wv.Some? == net.layers[l].kind.Sliding?
    requires Holds(net, net.layers[l].kind, cap, st0, Kvs(net, net.layers[l], Stream(net, toks, l))[..|toks| - 1])
    requires step.pos == |toks| - 1 && step.kvLenGlobal == |toks|
    requires step.kvLenSliding == (if net.window < |toks| then net.window else |toks|)
    ensures Holds(net, net.layers[l].kind, cap, st, LayerKvs(net, toks, l))
    ensures b.n == 1 && TokenRow(net, b.x, cs, toks, l + 1)
  {
    hide Holds, LayerStep, Kvs;
    var ly := net.layers[l];
    b, st := DecodeRow(net, ly, cap, step.pos, if ly.kind.Sliding? then step.kvLenSliding else step.kvLenGlobal, cs, b0, st0, Stream(net, toks, l));
  }

  method DecodeStores(net: Net, cap: nat, step: StepState, cs: nat, b0: Bufs, kv0: seq<Store>, l: nat, ghost toks: seq<nat>, ghost q0: nat)
    returns (b: Bufs, kv: seq<Store>)
    requires Between(net, cap, kv0, toks, q0, l) && l < |kv0| && OrderInvariant(net.ar)
    requires TokenRow(net, b0.x, cs, toks, l) && b0.n == 1 && step.pos == q0 == |toks| - 1
    requires step.kvLenGlobal == |toks| && step.kvLenSliding == (if net.window < |toks| then net.window else |toks|)
    ensures b.n == 1 && TokenRow(net, b.x, cs, toks, l + 1)
    ensures Between(net, cap, kv, toks, q0, l + 1) && AllSized(net, cap, kv)
  {
    hide Holds, Kvs, Between, TokenRow, LayersHold, Stream, LayerStep, LayerKvs, OrderInvariant;
    BeforeLayer(net, cap, kv0, toks, q0, l);
    var st;
    b, st := DecodeOne(net, cap, step, cs, b0, kv0[l], l, toks);
    AfterLayer(net, cap, kv0, toks, q0, l, st);
    kv := kv0[l := st];
  }

  lemma AnyStoreHoldsNothing(net: Net, cap: nat, kv: seq<Store>)
    requires AllSized(net, cap, kv)
    ensures LayersHold(net, cap, kv, [], 0, |kv|)
  {
    forall l | 0 <= l < |kv|
      ensures Holds(net, net.layers[l].kind, cap, kv[l], LayerKvs(net, [], l))
    {
      EmptyHistoryHolds(net, net.layers[l].kind, cap, kv[l]);
      assert LayerKvs(net, [], l) == [];
    }
  }

  /** CPU-side staging: embedding rows and rope positions of a chunk; later rows keep what they had. */
  method EmbedRows(net: Net, pos: nat, tokens: seq<nat>, x0: seq<Row>, cs0: seq<nat>) returns (x: seq<Row>, cs: seq<nat>)
    requires |tokens| <= |x0| && |tokens| <= |cs0|
    ensures |x| == |x0| && |cs| == |cs0|
    ensures forall i | 0 <= i < |tokens| :: x[i] == EmbedRow(net, tokens[i])
    ensures forall i | 0 <= i < |tokens| :: cs[i] == pos + i
  {
    x, cs := x0, cs0;
    var t := 0;
    while t < |tokens|
      invariant t <= |tokens| && |x| == |x0| && |cs| == |cs0|
      invariant forall i | 0 <= i < t :: x[i] == EmbedRow(net, tokens[i])
      invariant forall i | 0 <= i < t :: cs[i] == pos + i
    {
      x := x[t := EmbedRow(net, tokens[t])];
      cs := cs[t := pos + t];
      t := t + 1;
    }
  }

  lemma Staged(net: Net, cap: nat, kv: seq<Store>, hist: seq<nat>, tokens: seq<nat>, x: seq<Row>, cs: seq<nat>)
    requires AllSized(net, cap, kv) && |hist| + |tokens| <= cap
    requires LayersHold(net, cap, kv, hist, 0, |kv|)
    requires |tokens| <= |x| && |tokens| <= |cs|
    requires forall i | 0 <= i < |tokens| :: x[i] == EmbedRow(net, tokens[i]) && cs[i] == |hist| + i
    ensures Between(net, cap, kv, hist + tokens, |hist|, 0)
    ensures RowsAt(net, x, cs, hist + tokens, |hist|, |tokens|, 0)
  {
    assert (hist + tokens)[..|hist|] == hist;
  }

  /** Where chunk `ci` starts. */
  function Offset(ci: nat, c: nat): nat {
    ci * c
  }

  lemma FirstOffset(c: nat)
    ensures Offset(0, c) == 0
  {
  }

  /** Chunk `ci` is the last of `ceil(len / c)` exactly when it reaches the end. */
  lemma LastChunk(len: nat, c: nat, ci: nat)
    requires 0 < c && Offset(ci, c) < len
    ensures ci == (len + c - 1) / c - 1 <==> len <= Offset(ci, c) + c
    ensures Offset(ci + 1, c) == Offset(ci, c) + c
  {
    var q, r := (len + c - 1) / c, (len + c - 1) % c;
    assert q * c + r == len + c - 1;
    assert (ci + 1) * c == ci * c + c;
    if q <= ci {
      Times(q, ci, c);
    } else {
      Times(ci + 1, q, c);
      if ci + 1 < q {
        assert (ci + 2) * c == ci * c + 2 * c;
        Times(ci + 2, q, c);
      }
    }
  }
}
