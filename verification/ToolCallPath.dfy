/** The whole path of a tool call: printed, tokenised, decoded, parsed. */
module ToolCallPaths {
  import opened Vocabs
  import opened Tokenizers
  import opened Values
  import opened ToolRoundTrips
  import opened TurnParsers

  /** A control token: a special that is no single character and that no merge yields. */
  ghost predicate OnlyControl(v: Vocab, id: nat) {
    && (exists s :: s in v.specials && s.1 == id && |s.0| != 1)
    && forall p | p in v.merges :: v.merges[p].1 != id
  }

  /** The parser's structural tokens are control tokens. */
  ghost predicate WireIsControl(v: Vocab, w: Wire) {
    && OnlyControl(v, w.channelOpen) && OnlyControl(v, w.channelClose) && OnlyControl(v, w.toolOpen) && OnlyControl(v, w.toolClose)
    && OnlyControl(v, w.responseOpen) && OnlyControl(v, w.eot) && OnlyControl(v, w.eos)
    && w.toolOpen != w.toolClose && !EndsTurn(w, w.toolOpen) && !EndsTurn(w, w.toolClose)
  }

  /** Plain text is encoded without any structural token, whatever markers it spells. */
  lemma PlainIsOrdinary(v: Vocab, w: Wire, text: string)
    requires Consistent(v) && WireIsControl(v, w)
    ensures Ordinary(w, SegmentIds(v, text))
  {
    var ids := SegmentIds(v, text);
    forall i | 0 <= i < |ids|
      ensures !Structural(w, ids[i])
    {
      if Structural(w, ids[i]) {
        assert OnlyControl(v, ids[i]);
        var s :| s in v.specials && s.1 == ids[i] && |s.0| != 1;
        PlainNeverInjects(v, text, s);
      }
    }
  }

  /**
    A call rendered by the prompt builder, encoded as plain text between the call
    markers and pushed token by token, comes out of the parser as the same call:
    same name, same argument tree in `dictsort` order, from any state before it.
   */
  lemma RenderedCallIsUnderstood(l: Lib, v: Vocab, w: Wire, t: Turn, name: string, args: Value)
    requires Consistent(v) && MergesAvoidBytes(v) && [MARK] in v.pieceToId && WireIsControl(v, w)
    requires args.Obj? && Good(l, false, args) && GoodName(name) && MARK !in CallText(l, name, args)
    ensures var body := SegmentIds(v, CallText(l, name, args));
            && InRange(v, body)
            && var inside := Steps(l, v, w, Step(l, v, w, t, w.toolOpen).0, body);
               && inside.1 == []
               && Step(l, v, w, inside.0, w.toolClose) == (Turn(Content, []), [ToolCall(name, Canon(l, args))])
               && Same(args, Canon(l, args))
  {
    assert |v.byteToId| == 256;
    var text := CallText(l, name, args);
    hide Consistent, CallText, SegmentIds, Step, Steps, Good, GoodName, Canon, Same, Ordinary, Decoded;
    PlainRoundTripIff(v, text);
    PlainIsOrdinary(v, w, text);
    CallIsParsedText(l, v, w, t, SegmentIds(v, text));
    GoodIff(l, args);
    CallRoundTripIff(l, name, args);
  }
}
