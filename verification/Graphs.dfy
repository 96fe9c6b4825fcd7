/** Command graphs: what is recorded once and submitted many times. */
module Graphs {

  const SEGMENT_LAYERS: nat := 6

  datatype LogitsMode = NoLogits | LastLogits

  datatype Key = Key(mPad: nat, nReal: nat, mode: LogitsMode)

  datatype Cmd =
    | PrefillLayer(layer: nat, mPad: nat, nReal: nat)
    | PrefillLogits(nReal: nat)
    | DecodeLayer(layer: nat)
    | DecodeLogits

  type Graph = seq<Cmd>

  /** What a whole prefill chunk must run: every layer once, in order, then the head if wanted. */
  function PrefillCmds(layers: nat, key: Key): (g: Graph)
    ensures |g| == layers + if key.mode.LastLogits? then 1 else 0
  {
    seq(layers, i requires 0 <= i < layers => PrefillLayer(i, key.mPad, key.nReal))
    + if key.mode.LastLogits? then [PrefillLogits(key.nReal)] else []
  }

  function DecodeCmds(layers: nat): (g: Graph)
    ensures |g| == layers + 1
  {
    seq(layers, i requires 0 <= i < layers => DecodeLayer(i)) + [DecodeLogits]
  }

  function Concat(segments: seq<Graph>): Graph {
    if segments == [] then [] else Concat(segments[..|segments| - 1]) + segments[|segments| - 1]
  }

  /** Commands run by the segments before segment `s`. */
  function Before(segments: seq<Graph>, s: nat): nat
    requires s <= |segments|
  {
    |Concat(segments[..s])|
  }

  lemma {:induction false} SegmentAt(segments: seq<Graph>, s: nat)
    requires s < |segments|
    ensures Before(segments, s + 1) == Before(segments, s) + |segments[s]| <= |Concat(segments)|
    ensures Concat(segments)[Before(segments, s)..Before(segments, s + 1)] == segments[s]
    decreases |segments|
  {
    var last := |segments| - 1;
    assert segments[..s + 1][..s] == segments[..s];
    if s == last {
      assert segments[..s + 1] == segments;
    } else {
      var init := segments[..last];
      SegmentAt(init, s);
      assert init[..s + 1] == segments[..s + 1] && init[..s] == segments[..s];
      assert Concat(segments) == Concat(init) + segments[last];
    }
  }

  lemma BeforeEnds(segments: seq<Graph>)
    ensures Before(segments, 0) == 0 && Before(segments, |segments|) == |Concat(segments)|
  {
    assert segments[..|segments|] == segments;
  }

  lemma ConcatAppend(segments: seq<Graph>, g: Graph)
    ensures Concat(segments + [g]) == Concat(segments) + g
  {
    assert (segments + [g])[..|segments|] == segments;
  }

  /** One `record_graph` call of the segmented recording. */
  method RecordSegment(layers: nat, start: nat, end: nat, key: Key) returns (g: Graph)
    requires start <= end <= layers
    ensures g == PrefillCmds(layers, key)[start..end] + Tail(layers, key, end)
  {
    g := [];
    var i := start;
    while i < end
      invariant start <= i <= end
      invariant g == PrefillCmds(layers, key)[start..i]
    {
      g := g + [PrefillLayer(i, key.mPad, key.nReal)];
      i := i + 1;
    }
    if end == layers && key.mode.LastLogits? {
      g := g + [PrefillLogits(key.nReal)];
    }
  }

  /** `record_prefill`: cutting the chunk into segments neither drops, repeats nor reorders a layer. */
  method RecordPrefill(layers: nat, key: Key) returns (segments: seq<Graph>)
    requires 0 < layers
    ensures Concat(segments) == PrefillCmds(layers, key)
    ensures |segments| == (layers + 5) / 6
    ensures forall s | 0 <= s < |segments| - 1 :: |segments[s]| == 6
  {
    segments := [];
    var start := 0;
    while start < layers
      invariant start <= layers
      invariant Concat(segments) == Done(layers, key, start)
      invariant if start < layers then start == 6 * |segments| else |segments| == (layers + 5) / 6
      invariant forall s | 0 <= s < |segments| :: start < layers || s < |segments| - 1 ==> |segments[s]| == 6
    {
      var end := if start + SEGMENT_LAYERS < layers then start + SEGMENT_LAYERS else layers;
      var g := RecordSegment(layers, start, end, key);
      ConcatAppend(segments, g);
      DoneStep(layers, key, start, end);
      segments := segments + [g];
      start := end;
    }
  }

  /** The commands a recording must contain once layers below `start` are recorded. */
  function Done(layers: nat, key: Key, start: nat): Graph
    requires start <= layers
  {
    PrefillCmds(layers, key)[..start] + Tail(layers, key, start)
  }

  function Tail(layers: nat, key: Key, end: nat): Graph {
    if end == layers && key.mode.LastLogits? then [PrefillLogits(key.nReal)] else []
  }

  lemma DoneStep(layers: nat, key: Key, start: nat, end: nat)
    requires start < end <= layers
    ensures Done(layers, key, end) == Done(layers, key, start) + (PrefillCmds(layers, key)[start..end] + Tail(layers, key, end))
  {
    assert PrefillCmds(layers, key)[..end] == PrefillCmds(layers, key)[..start] + PrefillCmds(layers, key)[start..end];
  }

  /** `record(0..n_layers, true)`. */
  method RecordDecode(layers: nat) returns (g: Graph)
    ensures g == DecodeCmds(layers)
  {
    g := [];
    var i := 0;
    while i < layers
      invariant i <= layers && g == DecodeCmds(layers)[..i]
    {
      g := g + [DecodeLayer(i)];
      i := i + 1;
    }
    g := g + [DecodeLogits];
  }
}
