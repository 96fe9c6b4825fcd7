/** One resident conversation: the KV state is reused when a prompt extends the history, and dropped otherwise. */
module Sessions {
  import opened Network
  import opened KvStore
  import opened Graphs
  import opened GpuModels
  import opened CpuModels

  const EOS_TOKENS: set<nat> := {1, 106}

  datatype StopReason = Eos(tok: nat) | MaxTokens | Aborted

  /**
    The parts of generation this module does not look into: the sampler as a
    deterministic automaton over its seed, and the caller's callback as a
    function of the tokens it has been shown.
   */
  datatype Params = Params(
    start: nat -> nat,
    draw: (nat, Row) -> (nat, nat),
    keep: seq<nat> -> bool,
    seed: nat,
    maxTokens: nat)

  datatype Reply = Reply(out: seq<nat>, reason: StopReason)

  /** What generation means without any cache: every draw sees the logits of all tokens so far. */
  ghost function Generate(net: Net, ps: Params, ctx: seq<nat>, out: seq<nat>, rng: nat): Reply
    requires 0 < |ctx|
    decreases ps.maxTokens - |out|
  {
    var (tok, rng2) := ps.draw(rng, Logits(net, ctx));
    var out2 := out + [tok];
    if !ps.keep(out2) then Reply(out2, Aborted)
    else if tok in EOS_TOKENS then Reply(out2, Eos(tok))
    else if |out2| >= ps.maxTokens then Reply(out2, MaxTokens)
    else Generate(net, ps, ctx + [tok], out2, rng2)
  }

  ghost function Answer(net: Net, ps: Params, prompt: seq<nat>): Reply
    requires 0 < |prompt|
  {
    Generate(net, ps, prompt, [], ps.start(ps.seed))
  }

  /** Tokens after which generation went on: no end markers, and accepted by the caller. */
  ghost predicate WentOn(ps: Params, s: seq<nat>) {
    forall i | 0 <= i < |s| :: s[i] != 1 && s[i] != 106 && ps.keep(s[..i + 1])
  }

  lemma WentOnWith(ps: Params, s: seq<nat>, tok: nat)
    requires WentOn(ps, s) && tok != 1 && tok != 106 && ps.keep(s + [tok])
    ensures WentOn(ps, s + [tok])
  {
    var t := s + [tok];
    forall i | 0 <= i < |t|
      ensures t[i] != 1 && t[i] != 106 && ps.keep(t[..i + 1])
    {
      assert t[..i + 1] == if i < |s| then s[..i + 1] else t;
    }
  }

  lemma {:induction false} StopsAtFirst(net: Net, ps: Params, ctx: seq<nat>, out: seq<nat>, rng: nat)
    requires 0 < |ctx| && (out == [] || |out| < ps.maxTokens) && WentOn(ps, out)
    ensures var r := Generate(net, ps, ctx, out, rng);
            && r.out != [] && (|r.out| == 1 || |r.out| <= ps.maxTokens) && WentOn(ps, r.out[..|r.out| - 1])
            && var last := r.out[|r.out| - 1];
               match r.reason
               case Aborted => !ps.keep(r.out)
               case Eos(tok) => ps.keep(r.out) && tok == last && (last == 1 || last == 106)
               case MaxTokens => ps.keep(r.out) && last != 1 && last != 106 && |r.out| >= ps.maxTokens
    decreases ps.maxTokens - |out|
  {
    hide Logits, WentOn;
    var (tok, rng2) := ps.draw(rng, Logits(net, ctx));
    var out2 := out + [tok];
    assert out2[..|out2| - 1] == out;
    if ps.keep(out2) && tok !in EOS_TOKENS && |out2| < ps.maxTokens {
      WentOnWith(ps, out, tok);
      StopsAtFirst(net, ps, ctx + [tok], out2, rng2);
    }
  }

  lemma AnswerIs(net: Net, ps: Params, prompt: seq<nat>)
    requires 0 < |prompt|
    ensures Answer(net, ps, prompt) == Generate(net, ps, prompt, [], ps.start(ps.seed)) && WentOn(ps, [])
  {
    hide Generate;
  }

  /** A reply stops at the first token that ends the turn, that the caller declines, or that reaches the limit. */
  lemma RepliesStopWell(net: Net, ps: Params, prompt: seq<nat>) returns (r: Reply, last: nat)
    requires 0 < |prompt|
    ensures r == Answer(net, ps, prompt) && r.out != [] && last == r.out[|r.out| - 1] && (|r.out| == 1 || |r.out| <= ps.maxTokens)
    ensures forall i | 0 <= i < |r.out| - 1 :: r.out[i] != 1 && r.out[i] != 106 && ps.keep(r.out[..i + 1])
    ensures match r.reason
            case Aborted => !ps.keep(r.out)
            case Eos(tok) => ps.keep(r.out) && tok == last && (last == 1 || last == 106)
            case MaxTokens => ps.keep(r.out) && last != 1 && last != 106 && |r.out| >= ps.maxTokens
  {
    hide *;
    AnswerIs(net, ps, prompt);
    StopsAtFirst(net, ps, prompt, [], ps.start(ps.seed));
    r := Answer(net, ps, prompt);
    last := r.out[|r.out| - 1];
    WentOnBefore(ps, r.out);
  }

  lemma WentOnBefore(ps: Params, s: seq<nat>)
    requires s != [] && WentOn(ps, s[..|s| - 1])
    ensures forall i | 0 <= i < |s| - 1 :: s[i] != 1 && s[i] != 106 && ps.keep(s[..i + 1])
  {
    var t := s[..|s| - 1];
    forall i | 0 <= i < |s| - 1
      ensures s[i] != 1 && s[i] != 106 && ps.keep(s[..i + 1])
    {
      assert t[i] == s[i] && t[..i + 1] == s[..i + 1];
    }
  }

  class Session {
    const model: GpuModel
    var history: seq<nat>
    const decodeGraph: Graph

    /** `history` is exactly what was fed since the last reset, and its KV rows are resident. */
    ghost predicate Valid()
      reads this, model
    {
      model.Resident(history) && decodeGraph == DecodeCmds(|model.cfg.net.layers|)
    }

    constructor (model: GpuModel)
      requires model.Resident([])
      ensures Valid() && this.model == model && history == []
    {
      var g := RecordDecode(|model.cfg.net.layers|);
      this.model, history, decodeGraph := model, [], g;
    }

    method Reset()
      requires Valid()
      modifies this`history, model`pos
      ensures Valid() && history == []
    {
      hide LayersHold;
      model.Reset();
      history := [];
    }

    /** Length of the longest common prefix of history and prompt. */
    method CommonPrefix(prompt: seq<nat>) returns (n: nat)
      ensures n <= |history| && n <= |prompt| && history[..n] == prompt[..n]
      ensures n < |history| && n < |prompt| ==> history[n] != prompt[n]
    {
      n := 0;
      while n < |history| && n < |prompt| && history[n] == prompt[n]
        invariant n <= |history| && n <= |prompt| && history[..n] == prompt[..n]
      {
        n := n + 1;
      }
    }

    /** Reuse is append-only: keep the history exactly when it is a proper prefix of the prompt. */
    method Prepare(prompt: seq<nat>)
      requires Valid() && 0 < |prompt|
      modifies this`history, model`pos
      ensures Valid() && history < prompt
      ensures history == if old(history) < prompt then old(history) else []
    {
      var common := CommonPrefix(prompt);
      if common < |history| || |history| >= |prompt| {
        Reset();
      }
    }

    /** Prefill only what is not resident; the logits are those of the whole prompt. */
    method Feed(prompt: seq<nat>) returns (logits: Row)
      requires Valid() && history < prompt && |prompt| <= model.cfg.globalCap
      modifies this`history, model
      ensures Valid() && history == prompt && logits == Logits(model.cfg.net, prompt)
    {
      var resume := |history|;
      assert history + prompt[resume..] == prompt;
      logits := model.Prefill(prompt[resume..], history);
      history := history + prompt[resume..];
    }

    method Step(tok: nat) returns (logits: Row)
      requires Valid() && |history| < model.cfg.globalCap && OrderInvariant(model.cfg.net.ar)
      modifies this`history, model
      ensures Valid() && history == old(history) + [tok] && logits == Logits(model.cfg.net, history)
    {
      logits := model.DecodeStep(decodeGraph, tok, history);
      history := history + [tok];
    }

    /**
      One request. The reply is the cache-free answer to the prompt, whatever
      this session served before; the history ends as prompt plus all samples but the last.
     */
    method Request(prompt: seq<nat>, ps: Params) returns (r: Reply)
      requires Valid() && 0 < |prompt| <= model.cfg.globalCap && |prompt| + ps.maxTokens <= model.cfg.globalCap + 1
      requires OrderInvariant(model.cfg.net.ar)
      modifies this`history, model
      ensures r == Answer(model.cfg.net, ps, prompt)
      ensures Valid() && 0 < |r.out| && history == prompt + r.out[..|r.out| - 1]
    {
      hide *;
      Prepare(prompt);
      var logits := Feed(prompt);
      r := Sample(prompt, ps, logits);
    }

    method Sample(prompt: seq<nat>, ps: Params, logits0: Row) returns (r: Reply)
      requires Valid() && 0 < |prompt| <= model.cfg.globalCap && |prompt| + ps.maxTokens <= model.cfg.globalCap + 1
      requires OrderInvariant(model.cfg.net.ar)
      requires history == prompt && logits0 == Logits(model.cfg.net, prompt)
      modifies this`history, model
      ensures r == Answer(model.cfg.net, ps, prompt)
      ensures Valid() && 0 < |r.out| && history == prompt + r.out[..|r.out| - 1]
    {
      hide Valid, Logits, OrderInvariant;
      var rng, out, logits := ps.start(ps.seed), [], logits0;
      while true
        invariant Valid() && history == prompt + out && logits == Logits(model.cfg.net, history)
        invariant out == [] || |out| < ps.maxTokens
        invariant Generate(model.cfg.net, ps, history, out, rng) == Answer(model.cfg.net, ps, prompt)
        decreases ps.maxTokens - |out|
      {
        var (tok, rng2) := ps.draw(rng, logits);
        ghost var before := out;
        out, rng := out + [tok], rng2;
        assert out[..|out| - 1] == before;
        if !ps.keep(out) {
          return Reply(out, Aborted);
        }
        if tok in EOS_TOKENS {
          return Reply(out, Eos(tok));
        }
        if |out| >= ps.maxTokens {
          return Reply(out, MaxTokens);
        }
        assert prompt + before + [tok] == prompt + out;
        logits := Step(tok);
      }
    }
  }

  /** Over any sequence of requests, every reply is the one a fresh session would give. */
  method Serve(s: Session, requests: seq<(seq<nat>, Params)>) returns (replies: seq<Reply>)
    requires s.Valid() && OrderInvariant(s.model.cfg.net.ar)
    requires forall i | 0 <= i < |requests| ::
               0 < |requests[i].0| <= s.model.cfg.globalCap && |requests[i].0| + requests[i].1.maxTokens <= s.model.cfg.globalCap + 1
    modifies s, s.model
    ensures s.Valid() && |replies| == |requests|
    ensures forall i | 0 <= i < |requests| :: replies[i] == Answer(s.model.cfg.net, requests[i].1, requests[i].0)
  {
    hide *;
    replies := [];
    var i := 0;
    while i < |requests|
      invariant i <= |requests| && |replies| == i && s.Valid()
      invariant forall j | 0 <= j < i :: replies[j] == Answer(s.model.cfg.net, requests[j].1, requests[j].0)
    {
      var r := s.Request(requests[i].0, requests[i].1);
      replies := replies + [r];
      i := i + 1;
    }
  }

  method DecodeAll(gpu: GpuModel, prompt: seq<nat>, more: seq<nat>, first: Row) returns (logits: Row)
    requires 0 < |prompt| && gpu.Resident(prompt) && first == Logits(gpu.cfg.net, prompt) && |prompt| + |more| <= gpu.cfg.globalCap
    requires more == [] || OrderInvariant(gpu.cfg.net.ar)
    modifies gpu
    ensures gpu.Resident(prompt + more) && logits == Logits(gpu.cfg.net, prompt + more)
  {
    hide Logits, GpuModel.Resident, DecodeCmds, OrderInvariant;
    var graph := RecordDecode(|gpu.cfg.net.layers|);
    var i := 0;
    logits := first;
    assert prompt + more[..0] == prompt;
    while i < |more|
      invariant i <= |more| && gpu.Resident(prompt + more[..i]) && logits == Logits(gpu.cfg.net, prompt + more[..i])
    {
      assert prompt + more[..i] + [more[i]] == prompt + more[..i + 1];
      logits := gpu.DecodeStep(graph, more[i], prompt + more[..i]);
      i := i + 1;
    }
    assert prompt + more[..i] == prompt + more;
  }

  /**
    The cached path against the reference: from any state of the buffers, any
    prompt in chunks and any decoded tokens after it give the reference model's
    logits for one linear pass.
   */
  method FastAgreesWithReference(gpu: GpuModel, cpu: CpuKvCache, prompt: seq<nat>, more: seq<nat>) returns (fast: Row, reference: Row)
    requires gpu.Valid() && cpu.Holds(gpu.cfg.net, [])
    requires 0 < |prompt| && |prompt| + |more| <= gpu.cfg.globalCap && InVocab(gpu.cfg.net, prompt + more)
    requires more == [] || forall a: seq<(Float, Float)>, b: seq<(Float, Float)> :: multiset(a) == multiset(b) ==> gpu.cfg.net.ar.mix(a) == gpu.cfg.net.ar.mix(b)
    modifies gpu, cpu
    ensures fast == reference
    ensures cpu.Holds(gpu.cfg.net, prompt + more)
    ensures gpu.Resident(prompt + more)
  {
    assert [] + prompt == prompt && [] + (prompt + more) == prompt + more;
    hide *;
    reference := cpu.Forward(gpu.cfg.net, prompt + more, []);
    gpu.Reset();
    fast := gpu.Prefill(prompt, []);
    fast := DecodeAll(gpu, prompt, more, fast);
  }
}
