/** The turn parser: a state machine over sampled token ids. */
module TurnParsers {
  // `Step` is what one `push` does; `Reference` cuts the stream at structural tokens
  // and decodes each piece in one batch.

  import opened Utf8
  import opened Detok
  import opened Vocabs
  import opened Tokenizers
  import opened Values
  import opened ToolCalls

  /** The control tokens the parser reacts to. */
  datatype Wire = Wire(channelOpen: nat, channelClose: nat, toolOpen: nat, toolClose: nat, responseOpen: nat, eot: nat, eos: nat)

  datatype State = Content | ChannelHeader(header: string) | Channel | InCall(raw: string)

  datatype CallError = NotACall(error: ParseError) | Unterminated

  datatype Event =
    | ContentDelta(text: string)
    | ThinkingDelta(text: string)
    | ToolCall(name: string, args: Value)
    | InvalidToolCall(raw: string, why: CallError)
    | AwaitingToolResponse
    | EndOfTurn

  /** `parse_tool_call`. */
  function ParseToolCall(l: Lib, raw: string): Event {
    match TryParse(l, raw)
    case Call(name, args) => ToolCall(name, args)
    case NoCall(e) => InvalidToolCall(raw, NotACall(e))
  }

  predicate EndsTurn(w: Wire, id: nat) {
    id == w.eot || id == w.eos
  }

  predicate Structural(w: Wire, id: nat) {
    EndsTurn(w, id) || id == w.toolOpen || id == w.toolClose || id == w.channelOpen || id == w.channelClose || id == w.responseOpen
  }

  // -------------------------------------------------------- one push at a time

  /** Parser state and withheld bytes. */
  datatype Turn = Turn(state: State, pending: seq<byte>)

  function Flushed(pending: seq<byte>): string {
    if pending == [] then [] else [REPLACEMENT]
  }

  /** New text in the current state. */
  function AddText(s: State, text: string): (State, seq<Event>) {
    if text == [] then (s, [])
    else match s
      case Content => (s, [ContentDelta(text)])
      case Channel => (s, [ThinkingDelta(text)])
      case InCall(raw) => (InCall(raw + text), [])
      case ChannelHeader(header) =>
        var h := header + text;
        var nl := FindAny(h, "\n");
        if nl == |h| then (ChannelHeader(h), [])
        else (Channel, if h[nl + 1..] == [] then [] else [ThinkingDelta(h[nl + 1..])])
  }

  /** `end_segment`: an unfinished character becomes a replacement; in a header it counts as thinking. */
  function EndSegment(t: Turn): (Turn, seq<Event>) {
    var tail := Flushed(t.pending);
    if tail == [] then (Turn(t.state, []), [])
    else match t.state
      case Content => (Turn(Content, []), [ContentDelta(tail)])
      case InCall(raw) => (Turn(InCall(raw + tail), []), [])
      case _ => (Turn(t.state, []), [ThinkingDelta(tail)])
  }

  /** `push`. Ending a turn leaves the state alone; a stray call close drops the state but keeps withheld bytes. */
  function Step(l: Lib, v: Vocab, w: Wire, t: Turn, id: nat): (Turn, seq<Event>)
    requires Structural(w, id) || id < |v.pieces|
  {
    if EndsTurn(w, id) then (EndSegment(t).0, EndSegment(t).1 + [EndOfTurn])
    else if id == w.toolOpen then (Turn(InCall([]), []), EndSegment(t).1)
    else if id == w.toolClose then
      if t.state.InCall? then (Turn(Content, []), [ParseToolCall(l, t.state.raw + Flushed(t.pending))])
      else (Turn(Content, t.pending), [])
    else if id == w.channelOpen then (Turn(ChannelHeader([]), []), EndSegment(t).1)
    else if id == w.channelClose then (Turn(Content, []), EndSegment(t).1)
    else if id == w.responseOpen then (EndSegment(t).0, EndSegment(t).1 + [AwaitingToolResponse])
    else
      var d := DecodeOne(v, id, t.pending);
      (Turn(AddText(t.state, d.0).0, d.1), AddText(t.state, d.0).1)
  }

  /** `finish`. */
  function Finish(t: Turn): seq<Event> {
    var e := EndSegment(t);
    e.1 + if e.0.state.InCall? && e.0.state.raw != [] then [InvalidToolCall(e.0.state.raw, Unterminated)] else []
  }

  function Steps(l: Lib, v: Vocab, w: Wire, t: Turn, ids: seq<nat>): (Turn, seq<Event>)
    requires InRange(v, ids)
    decreases |ids|
  {
    if ids == [] then (t, [])
    else
      var one := Step(l, v, w, t, ids[0]);
      var rest := Steps(l, v, w, one.0, ids[1..]);
      (rest.0, one.1 + rest.1)
  }

  const CONTROLS: set<string> := {"<|channel>", "<channel|>", "<|tool_call>", "<tool_call|>", "<|tool_response>"}

  /** The vocabulary has the five control pieces. */
  predicate HasControls(v: Vocab) {
    forall p | p in CONTROLS :: p in v.pieceToId
  }

  function WireOf(v: Vocab): Wire
    requires HasControls(v)
  {
    Wire(v.pieceToId["<|channel>"], v.pieceToId["<channel|>"], v.pieceToId["<|tool_call>"],
         v.pieceToId["<tool_call|>"], v.pieceToId["<|tool_response>"], v.eot, v.eos)
  }

  // ------------------------------------------------------------- the class

  class TurnParser {
    var state: State
    const detok: DetokBuffer
    const wire: Wire

    ghost predicate Valid()
      reads this, detok
    {
      detok.Valid()
    }

    ghost function Now(): Turn
      reads this, detok
    {
      Turn(state, detok.pending)
    }

    /** `new`: a vocabulary without one of the five control tokens is refused by a panic. */
    constructor (v: Vocab)
      requires HasControls(v)
      ensures Valid() && Now() == Turn(Content, []) && fresh(this) && fresh(detok)
      ensures wire == WireOf(v)
    {
      state := Content;
      detok := new DetokBuffer();
      wire := Wire(v.pieceToId["<|channel>"], v.pieceToId["<channel|>"], v.pieceToId["<|tool_call>"],
                v.pieceToId["<tool_call|>"], v.pieceToId["<|tool_response>"], v.eot, v.eos);
    }

    method CloseSegment(events0: seq<Event>) returns (events: seq<Event>)
      requires Valid()
      modifies this, detok
      ensures Valid() && Now() == EndSegment(old(Now())).0
      ensures events == events0 + EndSegment(old(Now())).1
    {
      events := events0;
      var tail := detok.Flush([]);
      assert tail == Flushed(old(detok.pending));
      if tail == [] {
        return;
      }
      match state {
        case Content => events := events + [ContentDelta(tail)];
        case InCall(raw) => state := InCall(raw + tail);
        case _ => events := events + [ThinkingDelta(tail)];
      }
    }

    method Push(l: Lib, v: Vocab, id: nat, events0: seq<Event>) returns (ok: bool, events: seq<Event>)
      requires Valid() && Consistent(v)
      modifies this, detok
      ensures Valid() && ok == (Structural(wire, id) || id < |v.pieces|)
      ensures ok ==> Now() == Step(l, v, wire, old(Now()), id).0 && events == events0 + Step(l, v, wire, old(Now()), id).1
      ensures !ok ==> Now() == old(Now()) && events == events0
    {
      hide Consistent, DecodeOne, AddText;
      if id == wire.eot || id == wire.eos || id == wire.toolOpen || id == wire.toolClose
        || id == wire.channelOpen || id == wire.channelClose || id == wire.responseOpen
      {
        events := PushStructural(l, v, id, events0);
        return true, events;
      }
      var text;
      ok, text := DecodeStreaming(v, id, detok, []);
      events := events0;
      assert ok ==> text == DecodeOne(v, id, old(detok.pending)).0;
      if ok {
        events := PushText(text, events);
      }
    }

    /** Decoded text, into the current segment. */
    method PushText(text: string, events0: seq<Event>) returns (events: seq<Event>)
      modifies `state
      ensures (state, events) == (AddText(old(state), text).0, events0 + AddText(old(state), text).1)
    {
      events := events0;
      assert events0 + [] == events0;
      if text == [] {
        return;
      }
      match state {
        case Content => events := events + [ContentDelta(text)];
        case Channel => events := events + [ThinkingDelta(text)];
        case InCall(raw) => state := InCall(raw + text);
        case ChannelHeader(header) =>
          var h := header + text;
          var nl := FindAny(h, "\n");
          if nl < |h| {
            state := Channel;
            if h[nl + 1..] != [] {
              events := events + [ThinkingDelta(h[nl + 1..])];
            }
          } else {
            state := ChannelHeader(h);
          }
      }
    }

    method PushStructural(l: Lib, v: Vocab, id: nat, events0: seq<Event>) returns (events: seq<Event>)
      requires Valid() && Structural(wire, id)
      modifies this, detok
      ensures Valid() && Now() == Step(l, v, wire, old(Now()), id).0 && events == events0 + Step(l, v, wire, old(Now()), id).1
    {
      events := events0;
      if id == wire.eot || id == wire.eos {
        events := CloseSegment(events);
        events := events + [EndOfTurn];
      } else if id == wire.toolOpen {
        events := CloseSegment(events);
        state := InCall([]);
      } else if id == wire.toolClose {
        var was := state;
        state := Content;
        if was.InCall? {
          var raw := detok.Flush(was.raw);
          var call := TryParseToolCall(l, raw);
          match call {
            case Call(name, args) => events := events + [ToolCall(name, args)];
            case NoCall(e) => events := events + [InvalidToolCall(raw, NotACall(e))];
          }
        }
      } else if id == wire.channelOpen {
        events := CloseSegment(events);
        state := ChannelHeader([]);
      } else if id == wire.channelClose {
        events := CloseSegment(events);
        state := Content;
      } else {
        events := CloseSegment(events);
        events := events + [AwaitingToolResponse];
      }
    }

    method End(events0: seq<Event>) returns (events: seq<Event>)
      requires Valid()
      modifies this, detok
      ensures Valid() && Now() == Turn(Content, []) && events == events0 + Finish(old(Now()))
    {
      events := CloseSegment(events0);
      if state.InCall? && state.raw != [] {
        events := events + [InvalidToolCall(state.raw, Unterminated)];
      }
      state := Content;
    }
  }

  // ------------------------------------------------------ what was emitted

  /** Output with delta boundaries forgotten. */
  datatype Item = Said(c: char) | Thought(c: char) | Other(e: Event)

  function Chars(thinking: bool, s: string): (r: seq<Item>)
    ensures |r| == |s|
  {
    seq(|s|, i requires 0 <= i < |s| => if thinking then Thought(s[i]) else Said(s[i]))
  }

  lemma CharsAppend(thinking: bool, a: string, b: string)
    ensures Chars(thinking, a + b) == Chars(thinking, a) + Chars(thinking, b)
  {
  }

  function FlatEvent(e: Event): seq<Item> {
    match e
    case ContentDelta(t) => Chars(false, t)
    case ThinkingDelta(t) => Chars(true, t)
    case _ => [Other(e)]
  }

  function Flat(es: seq<Event>): seq<Item> {
    if es == [] then [] else FlatEvent(es[0]) + Flat(es[1..])
  }

  lemma {:induction false} FlatAppend(a: seq<Event>, b: seq<Event>)
    ensures Flat(a + b) == Flat(a) + Flat(b)
    decreases |a|
  {
    hide FlatEvent;
    if a == [] {
      assert a + b == b;
    } else {
      FlatAppend(a[1..], b);
      assert (a + b)[1..] == a[1..] + b && (a + b)[0] == a[0];
    }
  }

  lemma FlatOne(e: Event)
    ensures Flat([e]) == FlatEvent(e)
  {
    assert [e][1..] == [];
    assert FlatEvent(e) + [] == FlatEvent(e);
  }

  // -------------------------------------------------- segments, in one batch

  /** A header not yet finished holds no newline. */
  predicate HeaderOpen(s: State) {
    s.ChannelHeader? ==> '\n' !in s.header
  }

  /** The effect of `text` arriving in state `s`, however it is cut into deltas. */
  function Grown(s: State, text: string): (State, seq<Item>) {
    match s
    case Content => (s, Chars(false, text))
    case Channel => (s, Chars(true, text))
    case InCall(raw) => (InCall(raw + text), [])
    case ChannelHeader(header) =>
      var h := header + text;
      var nl := FindAny(h, "\n");
      if nl == |h| then (ChannelHeader(h), []) else (Channel, Chars(true, h[nl + 1..]))
  }

  lemma AddTextIsGrown(s: State, text: string)
    requires HeaderOpen(s)
    ensures (AddText(s, text).0, Flat(AddText(s, text).1)) == Grown(s, text)
    ensures HeaderOpen(AddText(s, text).0)
  {
    if text == [] {
      assert s.InCall? ==> s.raw + text == s.raw;
      assert s.ChannelHeader? ==> s.header + text == s.header;
    } else {
      FlatOne(ContentDelta(text));
      FlatOne(ThinkingDelta(text));
      if s.ChannelHeader? {
        var h := s.header + text;
        var nl := FindAny(h, "\n");
        if nl < |h| {
          FlatOne(ThinkingDelta(h[nl + 1..]));
        }
      }
    }
  }

  lemma FindNewlineStays(h: string, more: string)
    requires FindAny(h, "\n") < |h|
    ensures FindAny(h + more, "\n") == FindAny(h, "\n")
  {
    var i, j := FindAny(h, "\n"), FindAny(h + more, "\n");
    assert (h + more)[i] == h[i];
    assert j < |h| ==> (h + more)[j] == h[j];
  }

  /** Where text is cut does not matter. */
  lemma GrownTwice(s: State, a: string, b: string)
    requires HeaderOpen(s)
    ensures Grown(s, a + b) == (Grown(Grown(s, a).0, b).0, Grown(s, a).1 + Grown(Grown(s, a).0, b).1)
  {
    var more := Grown(Grown(s, a).0, b);
    assert [] + more.1 == more.1;
    match s
    case Content => CharsAppend(false, a, b);
    case Channel => CharsAppend(true, a, b);
    case InCall(raw) => assert raw + (a + b) == (raw + a) + b;
    case ChannelHeader(header) =>
      var h := header + a;
      assert header + (a + b) == h + b;
      var nl := FindAny(h, "\n");
      if nl < |h| {
        FindNewlineStays(h, b);
        assert (h + b)[nl + 1..] == h[nl + 1..] + b;
        CharsAppend(true, h[nl + 1..], b);
      }
  }

  predicate Ordinary(w: Wire, ids: seq<nat>) {
    forall i | 0 <= i < |ids| :: !Structural(w, ids[i])
  }

  /** Between structural tokens the parser shows, or collects, exactly the decoded text. */
  lemma {:induction false} OrdinaryRun(l: Lib, v: Vocab, w: Wire, t: Turn, ids: seq<nat>)
    requires InRange(v, ids) && Ordinary(w, ids) && HeaderOpen(t.state)
    ensures var r, d := Steps(l, v, w, t, ids), Run(v, ids, t.pending);
            && r.0.pending == d.1 && HeaderOpen(r.0.state)
            && (r.0.state, Flat(r.1)) == Grown(t.state, d.0)
    decreases |ids|
  {
    hide DecodeOne;
    if ids == [] {
      AddTextIsGrown(t.state, []);
    } else {
      var d := DecodeOne(v, ids[0], t.pending);
      var one := Step(l, v, w, t, ids[0]);
      AddTextIsGrown(t.state, d.0);
      hide AddText, Grown, HeaderOpen;
      OrdinaryRun(l, v, w, one.0, ids[1..]);
      FlatAppend(one.1, Steps(l, v, w, one.0, ids[1..]).1);
      GrownTwice(t.state, d.0, Run(v, ids[1..], d.1).0);
    }
  }

  /** A stretch of ordinary ids from a clean boundary to the next: decoded as one batch; in a header, an unfinished character is thinking. */
  function Segment(v: Vocab, s: State, ids: seq<nat>): (State, seq<Item>)
    requires InRange(v, ids)
  {
    var d := Run(v, ids, []);
    if s.ChannelHeader? then (Grown(s, d.0).0, Grown(s, d.0).1 + Chars(true, Flushed(d.1)))
    else Grown(s, Decoded(v, ids))
  }

  lemma EndSegmentItems(s: State, pending: seq<byte>)
    ensures var e := EndSegment(Turn(s, pending));
            && e.0.pending == [] && (HeaderOpen(s) ==> HeaderOpen(e.0.state)) && e.0.state.InCall? == s.InCall?
            && (e.0.state, Flat(e.1)) == if s.ChannelHeader? then (s, Chars(true, Flushed(pending))) else Grown(s, Flushed(pending))
  {
    FlatOne(ContentDelta(Flushed(pending)));
    FlatOne(ThinkingDelta(Flushed(pending)));
    assert s.InCall? && pending == [] ==> s.raw + Flushed(pending) == s.raw;
  }

  /** Running a segment and closing it is the batch reading of it. */
  lemma SegmentRuns(l: Lib, v: Vocab, w: Wire, s: State, ids: seq<nat>)
    requires InRange(v, ids) && Ordinary(w, ids) && HeaderOpen(s)
    ensures var r := Steps(l, v, w, Turn(s, []), ids);
            var e := EndSegment(r.0);
            && e.0.pending == [] && HeaderOpen(r.0.state) && HeaderOpen(e.0.state) && r.0.state.InCall? == e.0.state.InCall?
            && (e.0.state, Flat(r.1) + Flat(e.1)) == Segment(v, s, ids)
  {
    OrdinaryRun(l, v, w, Turn(s, []), ids);
    var r, d := Steps(l, v, w, Turn(s, []), ids), Run(v, ids, []);
    EndSegmentItems(r.0.state, r.0.pending);
    hide Run, Steps, EndSegment;
    if s.ChannelHeader? {
      assert r.0.state.Channel? ==> Grown(r.0.state, Flushed(d.1)) == (Channel, Chars(true, Flushed(d.1)));
    } else {
      GrownTwice(s, d.0, Flushed(d.1));
    }
  }

  // ---------------------------------------------------- the whole stream

  function FirstStructural(w: Wire, ids: seq<nat>): (n: nat)
    ensures n <= |ids| && Ordinary(w, ids[..n]) && (n < |ids| ==> Structural(w, ids[n]))
  {
    if ids == [] || Structural(w, ids[0]) then 0
    else
      var n := 1 + FirstStructural(w, ids[1..]);
      assert forall i | 1 <= i < n :: ids[..n][i] == ids[1..][..n - 1][i - 1];
      n
  }

  /** What a structural token does once the segment before it is closed. */
  function AfterToken(l: Lib, w: Wire, s: State, id: nat): (State, seq<Item>) {
    if EndsTurn(w, id) then (s, [Other(EndOfTurn)])
    else if id == w.toolOpen then (InCall([]), [])
    else if id == w.toolClose then (Content, if s.InCall? then [Other(ParseToolCall(l, s.raw))] else [])
    else if id == w.channelOpen then (ChannelHeader([]), [])
    else if id == w.channelClose then (Content, [])
    else (s, [Other(AwaitingToolResponse)])
  }

  /** The stream read segment by segment. */
  function Reference(l: Lib, v: Vocab, w: Wire, s: State, ids: seq<nat>): seq<Item>
    requires InRange(v, ids)
    decreases |ids|
  {
    var n := FirstStructural(w, ids);
    var seg := Segment(v, s, ids[..n]);
    if n == |ids| then seg.1 + if seg.0.InCall? && seg.0.raw != [] then [Other(InvalidToolCall(seg.0.raw, Unterminated))] else []
    else
      var tok := AfterToken(l, w, seg.0, ids[n]);
      seg.1 + tok.1 + Reference(l, v, w, tok.0, ids[n + 1..])
  }

  /** A call close that is not also a token with an earlier meaning. */
  predicate IsClose(w: Wire, id: nat) {
    id == w.toolClose && id != w.toolOpen && !EndsTurn(w, id)
  }

  predicate Stray(w: Wire, t: Turn, id: nat) {
    IsClose(w, id) && !t.state.InCall?
  }

  /** `Step`, except that a stray call close ends the segment like every other structural token. */
  function CleanStep(l: Lib, v: Vocab, w: Wire, t: Turn, id: nat): (Turn, seq<Event>)
    requires Structural(w, id) || id < |v.pieces|
  {
    if Stray(w, t, id) then (Turn(Content, []), EndSegment(t).1) else Step(l, v, w, t, id)
  }

  /** All that pushing `ids` and finishing shows. */
  function Shows(l: Lib, v: Vocab, w: Wire, t: Turn, ids: seq<nat>): seq<Item>
    requires InRange(v, ids)
    decreases |ids|
  {
    if ids == [] then Flat(Finish(t))
    else Flat(Step(l, v, w, t, ids[0]).1) + Shows(l, v, w, Step(l, v, w, t, ids[0]).0, ids[1..])
  }

  function CleanShows(l: Lib, v: Vocab, w: Wire, t: Turn, ids: seq<nat>): seq<Item>
    requires InRange(v, ids)
    decreases |ids|
  {
    if ids == [] then Flat(Finish(t))
    else Flat(CleanStep(l, v, w, t, ids[0]).1) + CleanShows(l, v, w, CleanStep(l, v, w, t, ids[0]).0, ids[1..])
  }

  lemma {:induction false} ShowsIsSteps(l: Lib, v: Vocab, w: Wire, t: Turn, ids: seq<nat>)
    requires InRange(v, ids)
    ensures Shows(l, v, w, t, ids) == Flat(Steps(l, v, w, t, ids).1) + Flat(Finish(Steps(l, v, w, t, ids).0))
    decreases |ids|
  {
    hide Step, FlatEvent, Finish;
    if ids != [] {
      var one := Step(l, v, w, t, ids[0]);
      ShowsIsSteps(l, v, w, one.0, ids[1..]);
      FlatAppend(one.1, Steps(l, v, w, one.0, ids[1..]).1);
    }
  }

  lemma {:induction false} StepsAppend(l: Lib, v: Vocab, w: Wire, t: Turn, a: seq<nat>, b: seq<nat>)
    requires InRange(v, a) && InRange(v, b)
    ensures InRange(v, a + b)
    ensures Steps(l, v, w, t, a + b) ==
      (Steps(l, v, w, Steps(l, v, w, t, a).0, b).0, Steps(l, v, w, t, a).1 + Steps(l, v, w, Steps(l, v, w, t, a).0, b).1)
    decreases |a|
  {
    hide Step;
    if a == [] {
      assert a + b == b;
      assert [] + Steps(l, v, w, t, b).1 == Steps(l, v, w, t, b).1;
    } else {
      var one := Step(l, v, w, t, a[0]);
      StepsAppend(l, v, w, one.0, a[1..], b);
      assert (a + b)[1..] == a[1..] + b && (a + b)[0] == a[0];
      var mid := Steps(l, v, w, one.0, a[1..]);
      var last := Steps(l, v, w, mid.0, b);
      assert one.1 + (mid.1 + last.1) == (one.1 + mid.1) + last.1;
    }
  }

  /** A structural token, read the clean way: closes the segment, then acts. */
  lemma TokenRuns(l: Lib, v: Vocab, w: Wire, t: Turn, id: nat)
    requires Structural(w, id) && HeaderOpen(t.state)
    ensures var e := EndSegment(t);
            var tok := AfterToken(l, w, e.0.state, id);
            var r := CleanStep(l, v, w, t, id);
            r.0 == Turn(tok.0, []) && HeaderOpen(tok.0) && Flat(r.1) == Flat(e.1) + tok.1
  {
    var e := EndSegment(t);
    EndSegmentItems(t.state, t.pending);
    FlatAppend(e.1, [EndOfTurn]);
    FlatAppend(e.1, [AwaitingToolResponse]);
    FlatOne(EndOfTurn);
    FlatOne(AwaitingToolResponse);
    if t.state.InCall? {
      FlatOne(ParseToolCall(l, t.state.raw + Flushed(t.pending)));
      assert t.pending == [] ==> t.state.raw + Flushed(t.pending) == t.state.raw;
    }
  }

  lemma FinishRuns(t: Turn)
    ensures Flat(Finish(t)) == Flat(EndSegment(t).1) +
      (var s := EndSegment(t).0.state; if s.InCall? && s.raw != [] then [Other(InvalidToolCall(s.raw, Unterminated))] else [])
  {
    var e := EndSegment(t);
    if e.0.state.InCall? {
      FlatOne(InvalidToolCall(e.0.state.raw, Unterminated));
      FlatAppend(e.1, [InvalidToolCall(e.0.state.raw, Unterminated)]);
    }
    assert e.1 + [] == e.1;
  }

  lemma OrdinaryIsClean(l: Lib, v: Vocab, w: Wire, t: Turn, id: nat)
    requires id < |v.pieces| && !Structural(w, id)
    ensures CleanStep(l, v, w, t, id) == Step(l, v, w, t, id)
  {
    hide Step;
  }

  /** Ordinary ids are read alike either way. */
  lemma {:induction false} CleanPastOrdinary(l: Lib, v: Vocab, w: Wire, t: Turn, a: seq<nat>, more: seq<nat>)
    requires InRange(v, a) && InRange(v, more) && Ordinary(w, a)
    ensures InRange(v, a + more)
    ensures CleanShows(l, v, w, t, a + more) == Flat(Steps(l, v, w, t, a).1) + CleanShows(l, v, w, Steps(l, v, w, t, a).0, more)
    decreases |a|
  {
    hide Step, CleanStep, Flat, Structural;
    if a == [] {
      assert a + more == more;
      assert Flat([]) + CleanShows(l, v, w, t, more) == CleanShows(l, v, w, t, more) by {
        FlatNothing();
      }
    } else {
      OrdinaryIsClean(l, v, w, t, a[0]);
      var one := Step(l, v, w, t, a[0]);
      CleanPastOrdinary(l, v, w, one.0, a[1..], more);
      assert (a + more)[1..] == a[1..] + more && (a + more)[0] == a[0];
      FlatAppend(one.1, Steps(l, v, w, one.0, a[1..]).1);
    }
  }

  lemma FlatNothing()
    ensures Flat([]) == []
  {
  }

  lemma Regroup(a: seq<Item>, b: seq<Item>, c: seq<Item>, d: seq<Item>)
    ensures a + ((b + c) + d) == (a + b) + c + d
  {
  }

  lemma CleanPastToken(l: Lib, v: Vocab, w: Wire, t: Turn, id: nat, more: seq<nat>)
    requires Structural(w, id) && HeaderOpen(t.state) && id < |v.pieces| && InRange(v, more)
    ensures InRange(v, [id] + more)
    ensures var e := EndSegment(t);
            var tok := AfterToken(l, w, e.0.state, id);
            HeaderOpen(tok.0) && CleanShows(l, v, w, t, [id] + more) == (Flat(e.1) + tok.1) + CleanShows(l, v, w, Turn(tok.0, []), more)
  {
    hide CleanStep, EndSegment, AfterToken, HeaderOpen, Structural, Flat;
    TokenRuns(l, v, w, t, id);
    assert ([id] + more)[1..] == more;
  }

  /** With clean closes, the token-by-token reading is the segment-by-segment one: each stretch decoded in one batch, each call parsed from its batch text. */
  lemma {:induction false} CleanIsReference(l: Lib, v: Vocab, w: Wire, s: State, ids: seq<nat>)
    requires InRange(v, ids) && HeaderOpen(s)
    ensures CleanShows(l, v, w, Turn(s, []), ids) == Reference(l, v, w, s, ids)
    decreases |ids|
  {
    hide CleanStep, Step, Steps, Segment, EndSegment, Finish, AfterToken, HeaderOpen, Structural, Ordinary, Flat, FirstStructural;
    var n := FirstStructural(w, ids);
    var a, more := ids[..n], ids[n..];
    assert ids == a + more;
    SegmentRuns(l, v, w, s, a);
    CleanPastOrdinary(l, v, w, Turn(s, []), a, more);
    var r, seg := Steps(l, v, w, Turn(s, []), a), Segment(v, s, a);
    if n == |ids| {
      FinishRuns(r.0);
    } else {
      assert more == [ids[n]] + ids[n + 1..];
      CleanPastToken(l, v, w, r.0, ids[n], ids[n + 1..]);
      var tok := AfterToken(l, w, seg.0, ids[n]);
      CleanIsReference(l, v, w, tok.0, ids[n + 1..]);
      Regroup(Flat(r.1), Flat(EndSegment(r.0).1), tok.1, Reference(l, v, w, tok.0, ids[n + 1..]));
    }
  }

  // -------------------------------------------- stray closes, exactly

  /** What a parser withholds: nothing, or the start of a character. */
  predicate Held(p: seq<byte>) {
    p == [] || Scan(p).Partial?
  }

  /** The next id is a byte token that continues the withheld character. */
  predicate Joins(v: Vocab, w: Wire, p: seq<byte>, id: nat) {
    !Structural(w, id) && id in v.idToByte && !Scan(p + [v.idToByte[id]]).Bad?
  }

  /** Past any further call closes, the withheld character is continued. */
  predicate Continued(v: Vocab, w: Wire, p: seq<byte>, ids: seq<nat>) {
    ids != [] && if IsClose(w, ids[0]) then Continued(v, w, p, ids[1..]) else Joins(v, w, p, ids[0])
  }

  /** Every stray close arrives with nothing withheld, or in content with a character that nothing continues. */
  predicate Harmless(l: Lib, v: Vocab, w: Wire, t: Turn, ids: seq<nat>)
    requires InRange(v, ids)
    decreases |ids|
  {
    ids == [] || (
      && (Stray(w, t, ids[0]) && t.pending != [] ==> t.state.Content? && !Continued(v, w, t.pending, ids[1..]))
      && Harmless(l, v, w, Step(l, v, w, t, ids[0]).0, ids[1..]))
  }

  /** A byte after the start of a character continues it, or shows that start to be the maximal subpart. */
  lemma ByteAfterStart(p: seq<byte>, b: byte)
    requires p != [] && Scan(p).Partial?
    ensures var f := Scan(p + [b]);
            && (f.Bad? ==> f.n == |p|) && (f.Char? ==> f.n == |p| + 1)
            && (!f.Bad? ==> Scan([b]) == Bad(1))
  {
  }

  lemma DrainAfterStart(p: seq<byte>, b: byte)
    requires p != [] && Scan(p).Partial?
    ensures var f := Scan(p + [b]);
            && (f.Bad? ==> Drain(p + [b]) == ([REPLACEMENT] + Drain([b]).0, Drain([b]).1))
            && (f.Char? ==> Drain(p + [b]) == ([f.c], []))
            && (f.Partial? ==> Drain(p + [b]) == ([], p + [b]))
            && (!f.Bad? ==> Drain([b]) == ([REPLACEMENT], []))
  {
    ByteAfterStart(p, b);
    var c := Scan(p + [b]);
    hide Scan;
    assert (p + [b])[|p|..] == [b] && (p + [b])[|p| + 1..] == [] && [b][1..] == [];
    assert Drain([]) == ([], []);
    assert [REPLACEMENT] + [] == [REPLACEMENT];
    assert c.Char? ==> [c.c] + [] == [c.c];
  }

  /** One push in content, with and without withheld bytes. */
  lemma LagStep(l: Lib, v: Vocab, w: Wire, p: seq<byte>, id: nat)
    requires id < |v.pieces| && p != [] && Held(p)
    ensures var a, b := Step(l, v, w, Turn(Content, p), id), Step(l, v, w, Turn(Content, []), id);
            && Held(a.0.pending)
            && (IsClose(w, id) ==> a == (Turn(Content, p), []) && b == (Turn(Content, []), []))
            && (Joins(v, w, p, id) ==>
                  && b.0 == Turn(Content, []) && Flat(b.1) == [Said(REPLACEMENT)]
                  && a.0.state == Content
                  && ((a.0.pending == [] && |Flat(a.1)| == 1 && Flat(a.1)[0].Said?) || (a.0.pending != [] && Flat(a.1) == [])))
            && (!IsClose(w, id) && !Joins(v, w, p, id) ==> a.0 == b.0 && Flat(a.1) == [Said(REPLACEMENT)] + Flat(b.1))
  {
    if Structural(w, id) {
      if !IsClose(w, id) {
        LagAtToken(l, v, w, p, id);
      }
    } else if id in v.idToByte {
      LagAtByte(p, v.idToByte[id]);
    } else {
      LagAtPiece(Shown(v.pieces[id]));
      assert [] + Shown(v.pieces[id]) == Shown(v.pieces[id]);
    }
  }

  lemma LagAtToken(l: Lib, v: Vocab, w: Wire, p: seq<byte>, id: nat)
    requires id < |v.pieces| && p != [] && Structural(w, id) && !IsClose(w, id)
    ensures var a, b := Step(l, v, w, Turn(Content, p), id), Step(l, v, w, Turn(Content, []), id);
            a.0 == b.0 && a.0.pending == [] && Flat(a.1) == [Said(REPLACEMENT)] + Flat(b.1)
  {
    var b := Step(l, v, w, Turn(Content, []), id);
    FlatOne(ContentDelta([REPLACEMENT]));
    FlatAppend([ContentDelta([REPLACEMENT])], b.1);
    assert [] + [EndOfTurn] == [EndOfTurn] && [] + [AwaitingToolResponse] == [AwaitingToolResponse];
    assert [ContentDelta([REPLACEMENT])] + [] == [ContentDelta([REPLACEMENT])];
    assert Chars(false, [REPLACEMENT]) == [Said(REPLACEMENT)];
  }

  /** Text in content, as items. */
  lemma SaidText(text: string)
    ensures Flat(AddText(Content, text).1) == Chars(false, text) && AddText(Content, text).0 == Content
  {
    FlatOne(ContentDelta(text));
  }

  lemma LagAtByte(p: seq<byte>, b: byte)
    requires p != [] && Held(p)
    ensures var a, c, f := Drain(p + [b]), Drain([] + [b]), Scan(p + [b]);
            && (!f.Bad? ==> c == ([REPLACEMENT], []) && Flat(AddText(Content, c.0).1) == [Said(REPLACEMENT)])
            && (f.Char? ==> a.1 == [] && |Flat(AddText(Content, a.0).1)| == 1 && Flat(AddText(Content, a.0).1)[0].Said?)
            && (f.Partial? ==> a == ([], p + [b]))
            && (f.Bad? ==> a.1 == c.1 && Flat(AddText(Content, a.0).1) == [Said(REPLACEMENT)] + Flat(AddText(Content, c.0).1))
  {
    var a, c := Drain(p + [b]), Drain([b]);
    assert [] + [b] == [b];
    DrainAfterStart(p, b);
    hide Scan, Drain, AddText, Flat;
    SaidText(a.0);
    SaidText(c.0);
    CharsAppend(false, [REPLACEMENT], c.0);
    assert Chars(false, [REPLACEMENT]) == [Said(REPLACEMENT)];
  }

  lemma LagAtPiece(text: string)
    ensures Flat(AddText(Content, [REPLACEMENT] + text).1) == [Said(REPLACEMENT)] + Flat(AddText(Content, text).1)
    ensures AddText(Content, [REPLACEMENT] + text).0 == Content == AddText(Content, text).0
  {
    SaidText(text);
    SaidText([REPLACEMENT] + text);
    CharsAppend(false, [REPLACEMENT], text);
    assert Chars(false, [REPLACEMENT]) == [Said(REPLACEMENT)];
  }

  lemma LagAtEnd(p: seq<byte>)
    requires p != []
    ensures Flat(Finish(Turn(Content, p))) == [Said(REPLACEMENT)] && Flat(Finish(Turn(Content, []))) == []
  {
    FlatOne(ContentDelta([REPLACEMENT]));
    assert [ContentDelta([REPLACEMENT])] + [] == [ContentDelta([REPLACEMENT])];
  }

  lemma StepHolds(l: Lib, v: Vocab, w: Wire, t: Turn, id: nat)
    requires id < |v.pieces| && Held(t.pending)
    ensures Held(Step(l, v, w, t, id).0.pending) && Held(CleanStep(l, v, w, t, id).0.pending)
  {
  }

  lemma CleanWithoutBytes(l: Lib, v: Vocab, w: Wire, id: nat)
    requires id < |v.pieces|
    ensures CleanStep(l, v, w, Turn(Content, []), id) == Step(l, v, w, Turn(Content, []), id)
  {
  }

  /** Bytes carried over a stray close show at least one character in content, and it comes first. */
  lemma {:induction false} CarriedIsSaid(l: Lib, v: Vocab, w: Wire, p: seq<byte>, ids: seq<nat>)
    requires InRange(v, ids) && p != [] && Held(p)
    ensures var r := Shows(l, v, w, Turn(Content, p), ids); r != [] && r[0].Said?
    decreases |ids|
  {
    if ids == [] {
      LagAtEnd(p);
    } else {
      LagStep(l, v, w, p, ids[0]);
      hide Step, Held, Joins, Flat, IsClose;
      var a := Step(l, v, w, Turn(Content, p), ids[0]);
      if a.0.pending != [] && a.0.state == Content && Flat(a.1) == [] {
        CarriedIsSaid(l, v, w, a.0.pending, ids[1..]);
      }
    }
  }

  /** Carrying bytes over stray closes never shows more than closing each segment. */
  lemma {:induction false} NotMore(l: Lib, v: Vocab, w: Wire, t: Turn, ids: seq<nat>)
    requires InRange(v, ids) && Held(t.pending)
    ensures |Shows(l, v, w, t, ids)| <= |CleanShows(l, v, w, t, ids)|
    decreases |ids|, 1
  {
    if ids != [] {
      StepHolds(l, v, w, t, ids[0]);
      if Stray(w, t, ids[0]) && t.pending != [] {
        StrayStep(l, v, w, t, ids[0]);
        hide Step, CleanStep, Flat, Held, Stray;
        CarriedNotMore(l, v, w, t.pending, ids[1..]);
      } else {
        StrayWithoutBytes(l, v, w, t, ids[0]);
        hide Step, CleanStep, Flat, Held, Stray;
        NotMore(l, v, w, Step(l, v, w, t, ids[0]).0, ids[1..]);
      }
    }
  }

  lemma StrayWithoutBytes(l: Lib, v: Vocab, w: Wire, t: Turn, id: nat)
    requires id < |v.pieces| && (Stray(w, t, id) ==> t.pending == [])
    ensures CleanStep(l, v, w, t, id) == Step(l, v, w, t, id)
  {
  }

  /** What a stray close does to withheld bytes, against ending the segment. */
  lemma StrayStep(l: Lib, v: Vocab, w: Wire, t: Turn, id: nat)
    requires id < |v.pieces| && Stray(w, t, id) && t.pending != []
    ensures Step(l, v, w, t, id) == (Turn(Content, t.pending), [])
    ensures Flat(Step(l, v, w, t, id).1) == [] && CleanStep(l, v, w, t, id).0 == Turn(Content, [])
    ensures Flat(CleanStep(l, v, w, t, id).1) == [if t.state.Content? then Said(REPLACEMENT) else Thought(REPLACEMENT)]
  {
    FlatOne(ContentDelta([REPLACEMENT]));
    FlatOne(ThinkingDelta([REPLACEMENT]));
  }

  /** Carried bytes show at most one item more than a clean start does, and no more when they are continued. */
  lemma {:induction false} CarriedNotMore(l: Lib, v: Vocab, w: Wire, p: seq<byte>, ids: seq<nat>)
    requires InRange(v, ids) && p != [] && Held(p)
    ensures |Shows(l, v, w, Turn(Content, p), ids)| <= 1 + |CleanShows(l, v, w, Turn(Content, []), ids)|
    ensures Continued(v, w, p, ids) ==> |Shows(l, v, w, Turn(Content, p), ids)| <= |CleanShows(l, v, w, Turn(Content, []), ids)|
    decreases |ids|, 0
  {
    if ids == [] {
      LagAtEnd(p);
    } else {
      LagStep(l, v, w, p, ids[0]);
      CleanWithoutBytes(l, v, w, ids[0]);
      var a, rest := Step(l, v, w, Turn(Content, p), ids[0]), ids[1..];
      hide Step, CleanStep, Held, Joins, Flat, IsClose;
      if a.0.pending != [] && a.0.state == Content {
        CarriedNotMore(l, v, w, a.0.pending, rest);
      }
      NotMore(l, v, w, a.0, rest);
    }
  }

  /** Carried bytes that nothing continues come out as the clean reading shows them. */
  lemma {:induction false} NotContinued(l: Lib, v: Vocab, w: Wire, p: seq<byte>, ids: seq<nat>)
    requires InRange(v, ids) && p != [] && Held(p) && !Continued(v, w, p, ids)
    ensures Shows(l, v, w, Turn(Content, p), ids) == [Said(REPLACEMENT)] + Shows(l, v, w, Turn(Content, []), ids)
    ensures Harmless(l, v, w, Turn(Content, p), ids) <==> Harmless(l, v, w, Turn(Content, []), ids)
    decreases |ids|
  {
    hide Step, Held, Joins, Flat, Shows, Harmless, Continued, IsClose, Structural, InRange;
    if ids == [] {
      CarriedAtEnd(l, v, w, p);
    } else {
      var id, rest := ids[0], ids[1..];
      RestInRange(v, ids);
      LagStep(l, v, w, p, id);
      var a, b := Step(l, v, w, Turn(Content, p), id), Step(l, v, w, Turn(Content, []), id);
      ShowsOn(l, v, w, p, ids);
      if IsClose(w, id) {
        NotContinued(l, v, w, p, rest);
      } else {
        Reassociate([Said(REPLACEMENT)], Flat(b.1), Shows(l, v, w, b.0, rest));
      }
    }
  }

  lemma Reassociate(a: seq<Item>, b: seq<Item>, c: seq<Item>)
    ensures (a + b) + c == a + (b + c)
    ensures a + [] == a && [] + c == c
  {
  }

  lemma RestInRange(v: Vocab, ids: seq<nat>)
    requires InRange(v, ids) && ids != []
    ensures InRange(v, ids[1..]) && ids[0] < |v.pieces|
  {
  }

  lemma CarriedAtEnd(l: Lib, v: Vocab, w: Wire, p: seq<byte>)
    requires p != []
    ensures InRange(v, [])
    ensures Shows(l, v, w, Turn(Content, p), []) == [Said(REPLACEMENT)] + Shows(l, v, w, Turn(Content, []), [])
    ensures Harmless(l, v, w, Turn(Content, p), []) && Harmless(l, v, w, Turn(Content, []), [])
  {
    LagAtEnd(p);
  }

  /** In content, one id on, with and without withheld bytes. */
  lemma ShowsOn(l: Lib, v: Vocab, w: Wire, p: seq<byte>, ids: seq<nat>)
    requires InRange(v, ids) && ids != [] && p != []
    ensures var a, b, rest := Step(l, v, w, Turn(Content, p), ids[0]), Step(l, v, w, Turn(Content, []), ids[0]), ids[1..];
            && Shows(l, v, w, Turn(Content, p), ids) == Flat(a.1) + Shows(l, v, w, a.0, rest)
            && Shows(l, v, w, Turn(Content, []), ids) == Flat(b.1) + Shows(l, v, w, b.0, rest)
            && (Harmless(l, v, w, Turn(Content, p), ids) <==>
                  (IsClose(w, ids[0]) ==> !Continued(v, w, p, rest)) && Harmless(l, v, w, a.0, rest))
            && (Harmless(l, v, w, Turn(Content, []), ids) <==> Harmless(l, v, w, b.0, rest))
            && (Continued(v, w, p, ids) <==> if IsClose(w, ids[0]) then Continued(v, w, p, rest) else Joins(v, w, p, ids[0]))
            && Flat([]) == []
  {
    hide Step, FlatEvent, Joins, Structural;
  }

  /** The parser shows what clean closes would show exactly when its stray closes are harmless. */
  lemma {:induction false} CleanIff(l: Lib, v: Vocab, w: Wire, t: Turn, ids: seq<nat>)
    requires InRange(v, ids) && Held(t.pending)
    ensures Shows(l, v, w, t, ids) == CleanShows(l, v, w, t, ids) <==> Harmless(l, v, w, t, ids)
    decreases |ids|, 0
  {
    if ids != [] {
      var id, rest := ids[0], ids[1..];
      StepHolds(l, v, w, t, id);
      if Stray(w, t, id) && t.pending != [] {
        StrayStep(l, v, w, t, id);
        StrayIff(l, v, w, t, rest);
        hide Step, CleanStep, Flat, Held, Continued;
      } else {
        StrayWithoutBytes(l, v, w, t, id);
        hide Step, CleanStep, Flat, Held, Stray, Continued;
        var one := Step(l, v, w, t, id);
        CleanIff(l, v, w, one.0, rest);
        SameTail(Flat(one.1), Shows(l, v, w, one.0, rest), CleanShows(l, v, w, one.0, rest));
      }
    }
  }

  lemma SameTail(a: seq<Item>, x: seq<Item>, y: seq<Item>)
    ensures a + x == a + y <==> x == y
  {
    assert x == (a + x)[|a|..] && y == (a + y)[|a|..];
  }

  /** After a stray close with bytes withheld. */
  lemma StrayIff(l: Lib, v: Vocab, w: Wire, t: Turn, rest: seq<nat>)
    requires InRange(v, rest) && t.pending != [] && Held(t.pending)
    ensures var item := if t.state.Content? then Said(REPLACEMENT) else Thought(REPLACEMENT);
            (Shows(l, v, w, Turn(Content, t.pending), rest) == [item] + CleanShows(l, v, w, Turn(Content, []), rest)
        <==> t.state.Content? && !Continued(v, w, t.pending, rest) && Harmless(l, v, w, Turn(Content, t.pending), rest))
    decreases |rest|, 1
  {
    var p := t.pending;
    assert Held([]);
    hide Shows, CleanShows, Harmless, Held, Continued;
    CarriedIsSaid(l, v, w, p, rest);
    CarriedNotMore(l, v, w, p, rest);
    if !Continued(v, w, p, rest) {
      NotContinued(l, v, w, p, rest);
      CleanIff(l, v, w, Turn(Content, []), rest);
      SameTail([Said(REPLACEMENT)], Shows(l, v, w, Turn(Content, []), rest), CleanShows(l, v, w, Turn(Content, []), rest));
    }
  }

  /**
    A whole stream, pushed token by token and finished, shows what reading it segment by segment shows (each
    stretch between structural tokens decoded in one batch, each closed call parsed from the batch text since it
    was opened) exactly when its stray call closes are harmless.
   */
  lemma StreamIsReferenceIff(l: Lib, v: Vocab, w: Wire, s: State, ids: seq<nat>)
    requires InRange(v, ids) && HeaderOpen(s)
    ensures var r := Steps(l, v, w, Turn(s, []), ids);
            Flat(r.1) + Flat(Finish(r.0)) == Reference(l, v, w, s, ids) <==> Harmless(l, v, w, Turn(s, []), ids)
  {
    ShowsIsSteps(l, v, w, Turn(s, []), ids);
    CleanIff(l, v, w, Turn(s, []), ids);
    CleanIsReference(l, v, w, s, ids);
  }

  /** Call closes arrive only while a call is open. */
  predicate ClosesInside(w: Wire, open: bool, ids: seq<nat>)
    decreases |ids|
  {
    if ids == [] then true
    else if EndsTurn(w, ids[0]) then ClosesInside(w, open, ids[1..])
    else if ids[0] == w.toolOpen then ClosesInside(w, true, ids[1..])
    else if ids[0] == w.toolClose then open && ClosesInside(w, false, ids[1..])
    else if ids[0] == w.channelOpen || ids[0] == w.channelClose then ClosesInside(w, false, ids[1..])
    else ClosesInside(w, open, ids[1..])
  }

  /** Closes inside calls are harmless, whatever is withheld. */
  /** A call opened and closed around ordinary ids, whatever came before. */
  lemma {:induction false} CallIsInside(w: Wire, open: bool, body: seq<nat>)
    requires Ordinary(w, body) && w.toolOpen != w.toolClose
    requires w.eot !in {w.toolOpen, w.toolClose} && w.eos !in {w.toolOpen, w.toolClose}
    ensures ClosesInside(w, true, body + [w.toolClose]) && ClosesInside(w, open, [w.toolOpen] + body + [w.toolClose])
    decreases |body|
  {
    var rest := body + [w.toolClose];
    if body == [] {
      assert rest[1..] == [];
    } else {
      CallIsInside(w, true, body[1..]);
      assert rest[1..] == body[1..] + [w.toolClose] && rest[0] == body[0];
    }
    assert ([w.toolOpen] + body + [w.toolClose])[1..] == rest;
  }

  lemma {:induction false} InsideIsHarmless(l: Lib, v: Vocab, w: Wire, t: Turn, ids: seq<nat>)
    requires InRange(v, ids) && ClosesInside(w, t.state.InCall?, ids)
    ensures Harmless(l, v, w, t, ids)
    decreases |ids|
  {
    hide DecodeOne, Continued;
    if ids != [] {
      InsideIsHarmless(l, v, w, Step(l, v, w, t, ids[0]).0, ids[1..]);
    }
  }

  /** Byte tokens are ordinary: none of them is a control token. */
  lemma BytesAreOrdinary(v: Vocab, b: byte)
    requires Consistent(v) && HasControls(v) && v.pieces[v.eos] == "<eos>" && v.pieces[v.eot] == "<turn|>"
    ensures v.byteToId[b] < |v.pieces| && !Structural(WireOf(v), v.byteToId[b])
    ensures v.byteToId[b] in v.idToByte && v.idToByte[v.byteToId[b]] == b
  {
    var id := v.byteToId[b];
    assert ParseBytePiece(v.pieces[id]) == b;
    assert forall p | p in CONTROLS :: ParseBytePiece(p) == -1 && v.pieces[v.pieceToId[p]] == p;
  }

  lemma LeadIsWithheld(l: Lib, v: Vocab, w: Wire, lead: nat)
    requires lead < |v.pieces| && !Structural(w, lead) && lead in v.idToByte && v.idToByte[lead] == 0xE2
    ensures Step(l, v, w, Turn(Channel, []), lead) == (Turn(Channel, [0xE2]), [])
    ensures CleanStep(l, v, w, Turn(Channel, []), lead) == (Turn(Channel, [0xE2]), [])
  {
    assert [] + [0xE2] == [0xE2] && Scan([0xE2]).Partial?;
  }

  lemma ShowsTwo(l: Lib, v: Vocab, w: Wire, t: Turn, x: nat, y: nat)
    requires x < |v.pieces| && y < |v.pieces|
    ensures InRange(v, [x, y])
    ensures var one := Step(l, v, w, t, x);
            var two := Step(l, v, w, one.0, y);
            Shows(l, v, w, t, [x, y]) == Flat(one.1) + (Flat(two.1) + Flat(Finish(two.0)))
    ensures var one := CleanStep(l, v, w, t, x);
            var two := CleanStep(l, v, w, one.0, y);
            CleanShows(l, v, w, t, [x, y]) == Flat(one.1) + (Flat(two.1) + Flat(Finish(two.0)))
  {
    hide Step, CleanStep, Finish, Flat;
    assert [x, y][1..] == [y] && [y][1..] == [];
    var one, clean := Step(l, v, w, t, x), CleanStep(l, v, w, t, x);
    assert Shows(l, v, w, one.0, [y]) == Flat(Step(l, v, w, one.0, y).1) + Shows(l, v, w, Step(l, v, w, one.0, y).0, []);
    assert CleanShows(l, v, w, clean.0, [y]) == Flat(CleanStep(l, v, w, clean.0, y).1) + CleanShows(l, v, w, CleanStep(l, v, w, clean.0, y).0, []);
  }

  /** A stray close in a channel, with part of a character withheld: what was thought comes out as said. */
  lemma StrayCloseDiffers(l: Lib, v: Vocab)
    requires Consistent(v) && HasControls(v) && v.pieces[v.eos] == "<eos>" && v.pieces[v.eot] == "<turn|>"
    ensures var w := WireOf(v);
            var ids := [v.byteToId[0xE2], w.toolClose];
            && InRange(v, ids)
            && Shows(l, v, w, Turn(Channel, []), ids) == [Said(REPLACEMENT)]
            && Reference(l, v, w, Channel, ids) == [Thought(REPLACEMENT)]
  {
    var w, lead := WireOf(v), v.byteToId[0xE2];
    var t, ids := Turn(Channel, [0xE2]), [lead, w.toolClose];
    BytesAreOrdinary(v, 0xE2);
    assert v.pieces[w.toolClose] == "<tool_call|>" && v.pieces[w.toolOpen] == "<|tool_call>";
    assert Stray(w, t, w.toolClose);
    hide Consistent, Step, CleanStep, Finish, Reference, Flat, Structural, Stray, WireOf, HasControls, Shows, CleanShows;
    LeadIsWithheld(l, v, w, lead);
    StrayStep(l, v, w, t, w.toolClose);
    LagAtEnd([0xE2]);
    FlatNothing();
    ShowsTwo(l, v, w, Turn(Channel, []), lead, w.toolClose);
    CleanIsReference(l, v, w, Channel, ids);
  }

  /** The next turn reads as a fresh one exactly when the ended turn was in content: the state is not reset. */
  lemma NextTurnIsFreshIff(l: Lib, v: Vocab, t: Turn, id: nat)
    requires Consistent(v) && HasControls(v) && v.pieces[v.eos] == "<eos>" && v.pieces[v.eot] == "<turn|>"
    requires EndsTurn(WireOf(v), id)
    ensures (forall ids | InRange(v, ids) :: Shows(l, v, WireOf(v), Step(l, v, WireOf(v), t, id).0, ids) == Shows(l, v, WireOf(v), Turn(Content, []), ids))
       <==> t.state.Content?
  {
    var w, letter := WireOf(v), v.byteToId['a' as int];
    var u := Step(l, v, w, t, id).0;
    assert u.pending == [] && u.state.Content? == t.state.Content? && (u.state.Content? ==> u == Turn(Content, []));
    if !t.state.Content? {
      BytesAreOrdinary(v, 'a' as int);
      LetterShows(l, v, w, Content, letter);
      LetterShows(l, v, w, u.state, letter);
      assert InRange(v, [letter]);
    }
  }

  lemma LetterDrains()
    ensures Drain([] + ['a' as int]) == ("a", [])
  {
    var bs: seq<byte> := ['a' as int];
    assert [] + bs == bs && bs[1..] == [] && Scan(bs) == Char(1, 'a');
    assert Drain([]) == ([], []);
    assert ['a'] + [] == "a";
  }

  /** One letter of text tells content from every other state. */
  lemma LetterAdded(s: State)
    ensures Flat(AddText(s, "a").1) + Flat(Finish(Turn(AddText(s, "a").0, []))) == [Said('a')] <==> s.Content?
  {
    var r := Flat(AddText(s, "a").1) + Flat(Finish(Turn(AddText(s, "a").0, [])));
    FlatNothing();
    match s
    case Content =>
      SaidText("a");
      assert r == [Said('a')];
    case Channel =>
      FlatOne(ThinkingDelta("a"));
      assert r[0] == Thought('a');
    case InCall(raw) =>
      FlatOne(InvalidToolCall(raw + "a", Unterminated));
      assert EndSegment(Turn(InCall(raw + "a"), [])) == (Turn(InCall(raw + "a"), []), []);
      assert Finish(Turn(InCall(raw + "a"), [])) == [] + [InvalidToolCall(raw + "a", Unterminated)] == [InvalidToolCall(raw + "a", Unterminated)];
      assert r[0].Other?;
    case ChannelHeader(header) =>
      var h := header + "a";
      var nl := FindAny(h, "\n");
      if nl < |h| {
        FlatOne(ThinkingDelta(h[nl + 1..]));
        assert h[nl + 1..] != [] ==> r[0].Thought?;
      }
  }

  lemma LetterShows(l: Lib, v: Vocab, w: Wire, s: State, letter: nat)
    requires letter < |v.pieces| && !Structural(w, letter) && letter in v.idToByte && v.idToByte[letter] == 'a' as int
    ensures InRange(v, [letter])
    ensures Shows(l, v, w, Turn(s, []), [letter]) == [Said('a')] <==> s.Content?
  {
    LetterDrains();
    var one := Step(l, v, w, Turn(s, []), letter);
    assert [letter][1..] == [];
    LetterAdded(s);
    hide AddText, Flat, Finish, Drain;
    assert Shows(l, v, w, one.0, []) == Flat(Finish(one.0));
  }

  /** A fresh parser fed a whole stream shows the segment-by-segment reading of it exactly when its stray closes are harmless. */
  method ParseStream(l: Lib, v: Vocab, ids: seq<nat>) returns (events: seq<Event>)
    requires Consistent(v) && (forall i | 0 <= i < |ids| :: ids[i] < |v.pieces|)
    requires "<|channel>" in v.pieceToId && "<channel|>" in v.pieceToId && "<|tool_call>" in v.pieceToId
    requires "<tool_call|>" in v.pieceToId && "<|tool_response>" in v.pieceToId
    ensures Flat(events) == Shows(l, v, WireOf(v), Turn(Content, []), ids)
    ensures Flat(events) == Reference(l, v, WireOf(v), Content, ids) <==> Harmless(l, v, WireOf(v), Turn(Content, []), ids)
  {
    var parser := new TurnParser(v);
    ghost var w := parser.wire;
    hide Consistent, Step, Finish, Reference, Harmless, WireOf, HasControls;
    events := [];
    var i := 0;
    while i < |ids|
      invariant i <= |ids| && parser.Valid() && InRange(v, ids[..i])
      invariant fresh(parser) && fresh(parser.detok)
      invariant (parser.Now(), events) == Steps(l, v, w, Turn(Content, []), ids[..i])
    {
      assert ids[..i + 1] == ids[..i] + [ids[i]];
      ghost var before := parser.Now();
      var _, more := parser.Push(l, v, ids[i], events);
      OneStep(l, v, w, before, ids[i]);
      StepsAppend(l, v, w, Turn(Content, []), ids[..i], [ids[i]]);
      events := more;
      i := i + 1;
    }
    assert ids[..i] == ids;
    ghost var t, shown := parser.Now(), events;
    events := parser.End(events);
    FlatAppend(shown, Finish(t));
    ShowsIsSteps(l, v, w, Turn(Content, []), ids);
    StreamIsReferenceIff(l, v, w, Content, ids);
  }

  lemma OneStep(l: Lib, v: Vocab, w: Wire, t: Turn, id: nat)
    requires id < |v.pieces|
    ensures InRange(v, [id]) && Steps(l, v, w, t, [id]) == Step(l, v, w, t, id)
  {
    hide Step;
    var one := Step(l, v, w, t, id);
    assert [id][1..] == [];
    assert Steps(l, v, w, one.0, []) == (one.0, []);
    assert one.1 + [] == one.1;
  }

  lemma {:induction false} NothingShownInCall(l: Lib, v: Vocab, w: Wire, raw: string, pending: seq<byte>, body: seq<nat>)
    requires InRange(v, body) && Ordinary(w, body)
    ensures Steps(l, v, w, Turn(InCall(raw), pending), body).1 == []
    decreases |body|
  {
    hide DecodeOne;
    if body != [] {
      var d := DecodeOne(v, body[0], pending);
      NothingShownInCall(l, v, w, AddText(InCall(raw), d.0).0.raw, d.1, body[1..]);
    }
  }

  /** A closed call reports the parse of the batch decode of what stood between the markers, from any state before it. */
  lemma CallIsParsedText(l: Lib, v: Vocab, w: Wire, t: Turn, body: seq<nat>)
    requires InRange(v, body) && Ordinary(w, body)
    requires !EndsTurn(w, w.toolOpen) && !EndsTurn(w, w.toolClose) && w.toolClose != w.toolOpen
    ensures var open := Step(l, v, w, t, w.toolOpen);
            var inside := Steps(l, v, w, open.0, body);
            && inside.1 == []
            && Step(l, v, w, inside.0, w.toolClose) == (Turn(Content, []), [ParseToolCall(l, Decoded(v, body))])
  {
    OrdinaryRun(l, v, w, Turn(InCall([]), []), body);
    var inside := Steps(l, v, w, Turn(InCall([]), []), body);
    assert [] + Run(v, body, []).0 == Run(v, body, []).0;
    NothingShownInCall(l, v, w, [], [], body);
  }
}
