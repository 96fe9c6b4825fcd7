/**
  Encoding and decoding around the merge engine: special-token splitting, byte
  fallback, and the streaming decoder. Positions count characters, not bytes.
 */
module Tokenizers {
  import opened Utf8
  import opened Detok
  import opened Bpe
  import opened Vocabs

  datatype SpecialTokens = Match | Plain

  /** The space marker pieces use. */
  const MARK: char := '\U{2581}'

  // --------------------------------------------------------------- decoding

  /** What one piece prints: the marker as a space. */
  function Shown(piece: string): (s: string)
    ensures |s| == |piece|
  {
    seq(|piece|, i requires 0 <= i < |piece| => if piece[i] == MARK then ' ' else piece[i])
  }

  predicate InRange(v: Vocab, ids: seq<nat>) {
    forall i | 0 <= i < |ids| :: ids[i] < |v.pieces|
  }

  /** What `decode_streaming` emits for one id, and what it then withholds. */
  function DecodeOne(v: Vocab, id: nat, pending: seq<byte>): (string, seq<byte>)
    requires id < |v.pieces|
  {
    if id in v.idToByte then Drain(pending + [v.idToByte[id]])
    else ((if pending == [] then [] else [REPLACEMENT]) + Shown(v.pieces[id]), [])
  }

  function Run(v: Vocab, ids: seq<nat>, pending: seq<byte>): (string, seq<byte>)
    requires InRange(v, ids)
    decreases |ids|
  {
    if ids == [] then ([], pending)
    else
      var first := DecodeOne(v, ids[0], pending);
      var rest := Run(v, ids[1..], first.1);
      (first.0 + rest.0, rest.1)
  }

  /** The decoded text of a whole id list. */
  function Decoded(v: Vocab, ids: seq<nat>): string
    requires InRange(v, ids)
  {
    var r := Run(v, ids, []);
    r.0 + if r.1 == [] then [] else [REPLACEMENT]
  }

  lemma {:induction false} RunAppend(v: Vocab, a: seq<nat>, b: seq<nat>, pending: seq<byte>)
    requires InRange(v, a) && InRange(v, b)
    ensures InRange(v, a + b)
    ensures Run(v, a + b, pending) == (Run(v, a, pending).0 + Run(v, b, Run(v, a, pending).1).0, Run(v, b, Run(v, a, pending).1).1)
    decreases |a|
  {
    hide DecodeOne;
    if a == [] {
      assert a + b == b && [] + Run(v, b, pending).0 == Run(v, b, pending).0;
    } else {
      var first := DecodeOne(v, a[0], pending);
      RunAppend(v, a[1..], b, first.1);
      assert (a + b)[1..] == a[1..] + b && (a + b)[0] == a[0];
      var mid := Run(v, a[1..], first.1);
      assert first.0 + (mid.0 + Run(v, b, mid.1).0) == (first.0 + mid.0) + Run(v, b, mid.1).0;
    }
  }

  /** `decode_streaming`. */
  method DecodeStreaming(v: Vocab, id: nat, buf: DetokBuffer, out0: string) returns (ok: bool, out: string)
    requires Consistent(v) && buf.Valid()
    modifies buf
    ensures buf.Valid() && ok == (id < |v.pieces|)
    ensures ok ==> (out, buf.pending) == (out0 + DecodeOne(v, id, old(buf.pending)).0, DecodeOne(v, id, old(buf.pending)).1)
    ensures !ok ==> out == out0 && buf.pending == old(buf.pending)
  {
    if id in v.idToByte {
      out := buf.PushByte(v.idToByte[id], out0);
      return true, out;
    }
    if id >= |v.pieces| {
      return false, out0;
    }
    ghost var flushed: string := if buf.pending == [] then [] else [REPLACEMENT];
    out := buf.Flush(out0);
    assert (out0 + flushed) + Shown(v.pieces[id]) == out0 + (flushed + Shown(v.pieces[id]));
    out := out + Shown(v.pieces[id]);
    ok := true;
  }

  /** `decode`: fails exactly on an id outside the vocabulary. */
  method Decode(v: Vocab, ids: seq<nat>) returns (ok: bool, out: string)
    requires Consistent(v)
    ensures ok == InRange(v, ids)
    ensures ok ==> out == Decoded(v, ids)
  {
    hide Consistent, DecodeOne;
    var buf := new DetokBuffer();
    out := [];
    var i := 0;
    while i < |ids|
      invariant i <= |ids| && buf.Valid() && InRange(v, ids[..i])
      invariant (out, buf.pending) == Run(v, ids[..i], [])
    {
      ghost var before := buf.pending;
      assert ids[..i + 1] == ids[..i] + [ids[i]];
      ok, out := DecodeStreaming(v, ids[i], buf, out);
      if !ok {
        return;
      }
      RunOne(v, ids[i], before);
      RunAppend(v, ids[..i], [ids[i]], []);
      i := i + 1;
    }
    assert ids[..i] == ids;
    out := buf.Flush(out);
    ok := true;
  }

  lemma RunOne(v: Vocab, id: nat, pending: seq<byte>)
    requires id < |v.pieces|
    ensures InRange(v, [id]) && Run(v, [id], pending) == DecodeOne(v, id, pending)
  {
    hide DecodeOne;
    var first := DecodeOne(v, id, pending);
    assert [id][1..] == [];
    assert Run(v, [], first.1) == ([], first.1);
    assert first.0 + [] == first.0;
  }

  // ------------------------------------------------------ plain segments

  /** Merges neither consume nor yield byte tokens. */
  ghost predicate MergesAvoidBytes(v: Vocab) {
    forall p | p in v.merges :: p.0 !in v.idToByte && p.1 !in v.idToByte && v.merges[p].1 !in v.idToByte
  }

  function ByteIds(v: Vocab, bs: seq<byte>): (ids: seq<nat>)
    requires |v.byteToId| == 256
    ensures |ids| == |bs|
  {
    seq(|bs|, i requires 0 <= i < |bs| => v.byteToId[bs[i]])
  }

  function Marked(ch: char): char {
    if ch == ' ' then MARK else ch
  }

  /** Initial symbols of one character: its own piece, or its bytes. */
  function CharIds(v: Vocab, ch: char): seq<nat>
    requires |v.byteToId| == 256
  {
    if [Marked(ch)] in v.pieceToId then [v.pieceToId[[Marked(ch)]]] else ByteIds(v, Encode(Marked(ch)))
  }

  function InitIds(v: Vocab, text: string): seq<nat>
    requires |v.byteToId| == 256
  {
    if text == [] then [] else InitIds(v, text[..|text| - 1]) + CharIds(v, text[|text| - 1])
  }

  ghost function SegmentIds(v: Vocab, text: string): seq<nat>
    requires |v.byteToId| == 256
  {
    MergeAll(v.merges, InitIds(v, text))
  }

  /** A text whose bytes a `usize` can count. */
  predicate Countable(text: string) {
    4 * |text| <= NONE
  }

  /** One character of `encode_segment`: spaces become the marker; a known piece is one symbol, anything else its bytes. */
  method PushChar(v: Vocab, syms0: seq<Sym>, ch: char) returns (syms: seq<Sym>)
    requires |v.byteToId| == 256 && Chain(syms0)
    ensures Chain(syms) && IdsOf(syms) == IdsOf(syms0) + CharIds(v, ch)
  {
    var c := if ch == ' ' then '\U{2581}' else ch;
    if [c] in v.pieceToId {
      syms := PushSym(syms0, v.pieceToId[[c]]);
      return;
    }
    var bytes := Encode(c);
    syms := syms0;
    var i := 0;
    while i < |bytes|
      invariant i <= |bytes| && Chain(syms) && IdsOf(syms) == IdsOf(syms0) + ByteIds(v, bytes)[..i]
    {
      syms := PushSym(syms, v.byteToId[bytes[i]]);
      i := i + 1;
    }
  }

  /** `encode_segment`. */
  method EncodeSegment(v: Vocab, text: string, out0: seq<nat>) returns (out: seq<nat>)
    requires |v.byteToId| == 256 && 4 * |text| <= 0xFFFF_FFFF_FFFF_FFFF
    ensures out == out0 + SegmentIds(v, text)
  {
    if text == [] {
      NothingToMerge(v.merges, []);
      return out0;
    }
    var syms := [];
    assert IdsOf([]) == [];
    var i := 0;
    while i < |text|
      invariant i <= |text| && Chain(syms) && IdsOf(syms) == InitIds(v, text[..i]) && |syms| <= 4 * i
    {
      assert text[..i + 1][..i] == text[..i];
      syms := PushChar(v, syms, text[i]);
      i := i + 1;
    }
    assert text[..i] == text;
    var ids, _ := MergeSymbols(v.merges, syms);
    out := out0 + ids;
  }

  // ------------------------------------------------- merging keeps meaning

  /** Joining two text pieces prints what they printed apart, whatever was pending. */
  lemma MergeKeepsRun(v: Vocab, ids: seq<nat>, i: nat, pending: seq<byte>)
    requires Consistent(v) && MergesAvoidBytes(v) && InRange(v, ids) && Mergeable(v.merges, ids, i)
    ensures InRange(v, MergeAt(v.merges, ids, i))
    ensures Run(v, MergeAt(v.merges, ids, i), pending) == Run(v, ids, pending)
  {
    var l, r := ids[i], ids[i + 1];
    var m := v.merges[(l, r)].1;
    var a, b := ids[..i], ids[i + 2..];
    var p := Run(v, a, pending).1;
    PairRun(v, l, r, m, p);
    assert ids == a + ([l, r] + b);
    assert MergeAt(v.merges, ids, i) == a + ([m] + b);
    RunAppend(v, [l, r], b, p);
    RunAppend(v, [m], b, p);
    RunAppend(v, a, [l, r] + b, pending);
    RunAppend(v, a, [m] + b, pending);
  }

  lemma PairRun(v: Vocab, l: nat, r: nat, m: nat, p: seq<byte>)
    requires l < |v.pieces| && r < |v.pieces| && m < |v.pieces| && v.pieces[m] == v.pieces[l] + v.pieces[r]
    requires l !in v.idToByte && r !in v.idToByte && m !in v.idToByte
    ensures InRange(v, [l, r]) && InRange(v, [m]) && Run(v, [l, r], p) == Run(v, [m], p)
  {
    RunOne(v, l, p);
    RunOne(v, r, []);
    RunOne(v, m, p);
    assert [l, r] == [l] + [r];
    RunAppend(v, [l], [r], p);
    ghost var flushed: string := if p == [] then [] else [REPLACEMENT];
    assert Shown(v.pieces[m]) == Shown(v.pieces[l]) + Shown(v.pieces[r]);
    assert flushed + Shown(v.pieces[m]) == (flushed + Shown(v.pieces[l])) + ([] + Shown(v.pieces[r]));
  }

  lemma {:induction false} MergeAllKeepsRun(v: Vocab, ids: seq<nat>, pending: seq<byte>)
    requires Consistent(v) && MergesAvoidBytes(v) && InRange(v, ids)
    ensures InRange(v, MergeAll(v.merges, ids)) && Run(v, MergeAll(v.merges, ids), pending) == Run(v, ids, pending)
    decreases |ids|
  {
    hide Consistent, DecodeOne;
    if i: nat :| IsBest(v.merges, ids, i) {
      MergeBest(v.merges, ids, i);
      MergeKeepsRun(v, ids, i, pending);
      MergeAllKeepsRun(v, MergeAt(v.merges, ids, i), pending);
    } else {
      assert MergeAll(v.merges, ids) == ids;
    }
  }

  // ------------------------------------------------ what a segment decodes to

  /** What a character decodes to: itself, except that the marker piece prints as a space. */
  function CharBack(v: Vocab, ch: char): char {
    if [Marked(ch)] in v.pieceToId then (if Marked(ch) == MARK then ' ' else ch) else Marked(ch)
  }

  function TextBack(v: Vocab, text: string): (s: string)
    ensures |s| == |text|
  {
    seq(|text|, i requires 0 <= i < |text| => CharBack(v, text[i]))
  }

  /** Bytes of a run drain as the run does. */
  lemma {:induction false} ByteRun(v: Vocab, bs: seq<byte>, pending: seq<byte>)
    requires Consistent(v) && Drain(pending) == ([], pending)
    ensures InRange(v, ByteIds(v, bs)) && Run(v, ByteIds(v, bs), pending) == Drain(pending + bs)
    decreases |bs|
  {
    hide Drain;
    if bs == [] {
      assert pending + bs == pending;
    } else {
      var ids := ByteIds(v, bs);
      var first := Drain(pending + [bs[0]]);
      TailIsSettled(pending + [bs[0]]);
      ByteRun(v, bs[1..], first.1);
      assert ids[1..] == ByteIds(v, bs[1..]);
      assert DecodeOne(v, ids[0], pending) == first;
      assert pending + bs == (pending + [bs[0]]) + bs[1..];
      DrainIsIncremental(pending + [bs[0]], bs[1..]);
    }
  }

  lemma DrainOfEncode(c: char)
    ensures Drain(Encode(c)) == ([c], [])
  {
    ScanOfEncode(c, []);
    assert Encode(c) + [] == Encode(c);
    hide Scan, Encode;
    assert Encode(c)[|Encode(c)|..] == [];
    assert [c] + [] == [c];
  }

  lemma CharRun(v: Vocab, ch: char)
    requires Consistent(v)
    ensures InRange(v, CharIds(v, ch)) && Run(v, CharIds(v, ch), []) == ([CharBack(v, ch)], [])
  {
    var c := Marked(ch);
    if [c] in v.pieceToId {
      var id := v.pieceToId[[c]];
      assert v.pieces[id] == [c];
      RunOne(v, id, []);
      assert [] + Shown([c]) == [CharBack(v, ch)];
    } else {
      assert Drain([]) == ([], []);
      ByteRun(v, Encode(c), []);
      DrainOfEncode(c);
      assert [] + Encode(c) == Encode(c);
    }
  }

  lemma TableSize(v: Vocab)
    requires Consistent(v)
    ensures |v.byteToId| == 256
  {
  }

  lemma {:induction false} InitRun(v: Vocab, text: string)
    requires Consistent(v)
    ensures InRange(v, InitIds(v, text)) && Run(v, InitIds(v, text), []) == (TextBack(v, text), [])
    decreases |text|
  {
    hide Consistent, CharIds, CharBack, Run, InRange;
    TableSize(v);
    if text == [] {
      assert TextBack(v, text) == [];
      RunNothing(v);
    } else {
      var init, ch := text[..|text| - 1], text[|text| - 1];
      InitRun(v, init);
      CharRun(v, ch);
      RunAppend(v, InitIds(v, init), CharIds(v, ch), []);
      assert TextBack(v, text) == TextBack(v, init) + [CharBack(v, ch)];
    }
  }

  lemma RunNothing(v: Vocab)
    ensures Run(v, [], []) == ([], []) && InRange(v, [])
  {
  }

  lemma SegmentRun(v: Vocab, text: string)
    requires Consistent(v) && MergesAvoidBytes(v)
    ensures InRange(v, SegmentIds(v, text)) && Run(v, SegmentIds(v, text), []) == (TextBack(v, text), [])
  {
    assert |v.byteToId| == 256;
    hide Consistent, DecodeOne;
    InitRun(v, text);
    MergeAllKeepsRun(v, InitIds(v, text), []);
  }

  /** Plain text that decodes to itself: no marker when the vocabulary has the marker piece, no space when it has not. */
  predicate ComesBack(v: Vocab, text: string) {
    if [MARK] in v.pieceToId then MARK !in text else ' ' !in text
  }

  lemma TextBackIff(v: Vocab, text: string)
    ensures TextBack(v, text) == text <==> ComesBack(v, text)
  {
    var back := TextBack(v, text);
    var lost := if [MARK] in v.pieceToId then MARK else ' ';
    if lost in text {
      var i :| 0 <= i < |text| && text[i] == lost;
      assert back[i] != lost;
    } else {
      assert forall i | 0 <= i < |text| :: back[i] == text[i];
    }
  }

  /**
    Round trip of plain text, exactly: it comes back iff it contains no marker
    (when the vocabulary has the marker piece) or no space (when it has not).
   */
  lemma PlainRoundTripIff(v: Vocab, text: string)
    requires Consistent(v)
    requires forall p | p in v.merges :: p.0 !in v.idToByte && p.1 !in v.idToByte && v.merges[p].1 !in v.idToByte
    ensures InRange(v, SegmentIds(v, text))
    ensures Decoded(v, SegmentIds(v, text)) == text <==> (if ['\U{2581}'] in v.pieceToId then '\U{2581}' !in text else ' ' !in text)
  {
    SegmentRun(v, text);
    TextBackIff(v, text);
    assert TextBack(v, text) + [] == TextBack(v, text);
  }

  // ----------------------------------------------- what a segment is made of

  /** The character a piece is looked up by. */
  function Lookup(ch: char): char {
    if ch == ' ' then '\U{2581}' else ch
  }

  /** Every character of the text, with spaces marked, is a piece. */
  predicate AllKnown(v: Vocab, text: string) {
    forall i | 0 <= i < |text| :: [Lookup(text[i])] in v.pieceToId
  }

  ghost predicate NoByteTokens(v: Vocab, ids: seq<nat>) {
    forall i | 0 <= i < |ids| :: ids[i] !in v.idToByte
  }

  lemma {:induction false} KnownInit(v: Vocab, text: string)
    requires Consistent(v) && AllKnown(v, text)
    ensures |InitIds(v, text)| == |text|
    ensures forall i | 0 <= i < |text| :: InitIds(v, text)[i] == v.pieceToId[[Lookup(text[i])]]
    decreases |text|
  {
    assert |v.byteToId| == 256;
    hide Consistent;
    if text != [] {
      var init, ch := text[..|text| - 1], text[|text| - 1];
      KnownInit(v, init);
      assert InitIds(v, text) == InitIds(v, init) + [v.pieceToId[[Lookup(ch)]]];
    }
  }

  /** A piece of one character is no byte token. */
  lemma PieceIsNoByte(v: Vocab, c: char)
    requires Consistent(v) && [c] in v.pieceToId
    ensures v.pieceToId[[c]] < |v.pieces| && v.pieces[v.pieceToId[[c]]] == [c] && v.pieceToId[[c]] !in v.idToByte
  {
    assert ParseBytePiece([c]) == -1;
  }

  lemma {:induction false} MergesKeepText(v: Vocab, ids: seq<nat>)
    requires MergesAvoidBytes(v) && NoByteTokens(v, ids)
    ensures NoByteTokens(v, MergeAll(v.merges, ids))
    decreases |ids|
  {
    if i: nat :| IsBest(v.merges, ids, i) {
      MergeBest(v.merges, ids, i);
      assert (ids[i], ids[i + 1]) in v.merges;
      MergesKeepText(v, MergeAt(v.merges, ids, i));
    }
  }

  /** Text of known characters is never spelled in bytes. */
  lemma KnownTextHasNoBytes(v: Vocab, text: string)
    requires Consistent(v) && (forall i | 0 <= i < |text| :: [Lookup(text[i])] in v.pieceToId)
    requires forall p | p in v.merges :: p.0 !in v.idToByte && p.1 !in v.idToByte && v.merges[p].1 !in v.idToByte
    ensures forall i | 0 <= i < |SegmentIds(v, text)| :: SegmentIds(v, text)[i] !in v.idToByte
  {
    KnownInit(v, text);
    forall i | 0 <= i < |text|
      ensures InitIds(v, text)[i] !in v.idToByte
    {
      PieceIsNoByte(v, Lookup(text[i]));
    }
    MergesKeepText(v, InitIds(v, text));
  }

  /** Where nothing merges, a segment is one id per character, and each id's piece is its character. */
  lemma UnmergedTextIsItsPieces(v: Vocab, text: string)
    requires Consistent(v) && (forall i | 0 <= i < |text| :: [Lookup(text[i])] in v.pieceToId)
    requires forall i | 0 < i < |text| :: (v.pieceToId[[Lookup(text[i - 1])]], v.pieceToId[[Lookup(text[i])]]) !in v.merges
    ensures var ids := SegmentIds(v, text);
            |ids| == |text| && forall i | 0 <= i < |text| :: ids[i] < |v.pieces| && v.pieces[ids[i]] == [Lookup(text[i])]
  {
    KnownInit(v, text);
    NothingToMerge(v.merges, InitIds(v, text));
    forall i | 0 <= i < |text|
      ensures InitIds(v, text)[i] < |v.pieces| && v.pieces[InitIds(v, text)[i]] == [Lookup(text[i])]
    {
      PieceIsNoByte(v, Lookup(text[i]));
    }
  }

  /** A character without a piece becomes the byte tokens of its encoding, one by one. */
  lemma UnknownCharIsItsBytes(v: Vocab, ch: char)
    requires Consistent(v) && MergesAvoidBytes(v) && [Lookup(ch)] !in v.pieceToId
    ensures var ids, bytes := SegmentIds(v, [ch]), Encode(Lookup(ch));
            |ids| == |bytes| && forall i | 0 <= i < |ids| :: ids[i] in v.idToByte && v.idToByte[ids[i]] == bytes[i]
  {
    var text := [ch];
    assert text[..0] == [] && InitIds(v, []) == [];
    assert InitIds(v, text) == CharIds(v, ch);
    NothingToMerge(v.merges, InitIds(v, text));
  }

  // -------------------------------------------------- no injected specials

  /** Ids a plain segment can contain: single characters, bytes, and merge results. */
  ghost predicate Spelled(v: Vocab, id: nat) {
    || (id < |v.pieces| && |v.pieces[id]| == 1)
    || id in v.idToByte
    || exists p :: p in v.merges && v.merges[p].1 == id
  }

  ghost predicate AllSpelled(v: Vocab, ids: seq<nat>) {
    forall i | 0 <= i < |ids| :: Spelled(v, ids[i])
  }

  lemma InitSpelled(v: Vocab, text: string)
    requires Consistent(v)
    ensures AllSpelled(v, InitIds(v, text))
    decreases |text|
  {
    if text != [] {
      InitSpelled(v, text[..|text| - 1]);
      assert AllSpelled(v, CharIds(v, text[|text| - 1]));
    }
  }

  lemma {:induction false} MergeAllSpelled(v: Vocab, ids: seq<nat>)
    requires AllSpelled(v, ids)
    ensures AllSpelled(v, MergeAll(v.merges, ids))
    decreases |ids|
  {
    if i: nat :| IsBest(v.merges, ids, i) {
      MergeBest(v.merges, ids, i);
      assert (ids[i], ids[i + 1]) in v.merges;
      MergeAllSpelled(v, MergeAt(v.merges, ids, i));
    }
  }

  /** Plain text never produces a special that is longer than a character and that no merge yields, however the text reads. */
  lemma PlainNeverInjects(v: Vocab, text: string, special: (string, nat))
    requires Consistent(v) && special in v.specials
    requires |special.0| != 1 && forall p | p in v.merges :: v.merges[p].1 != special.1
    ensures special.1 !in SegmentIds(v, text)
  {
    InitSpelled(v, text);
    MergeAllSpelled(v, InitIds(v, text));
  }

  // ------------------------------------------------------ special splitting

  datatype Found = Nothing | Special(start: nat, piece: string, id: nat)

  ghost predicate MatchesAt(v: Vocab, text: string, m: Found) {
    m.Special? && m.start < |text| && text[m.start] == '<' && m.piece <= text[m.start..] && (m.piece, m.id) in v.specials
  }

  /** Nothing matches earlier, and nothing longer matches at the same place. */
  ghost predicate LeftmostLongest(v: Vocab, text: string, m: Found) {
    && MatchesAt(v, text, m)
    && forall o | MatchesAt(v, text, o) :: m.start < o.start || (m.start == o.start && |o.piece| <= |m.piece|)
  }

  lemma MatchIsUnique(v: Vocab, text: string, m: Found, o: Found)
    requires Consistent(v) && LeftmostLongest(v, text, m) && LeftmostLongest(v, text, o)
    ensures m == o
  {
    assert m.piece == text[m.start..][..|m.piece|] == o.piece;
  }

  /** Of two prefixes of one text, the one with no fewer bytes has no fewer characters. */
  lemma ByteLenOrdersPrefixes(a: string, b: string, text: string)
    requires a <= text && b <= text && ByteLen(a) >= ByteLen(b)
    ensures |a| >= |b|
  {
    if |a| < |b| {
      assert b == a + b[|a|..];
      EncodeAppend(a, b[|a|..]);
    }
  }

  predicate At(text: string, start: nat, piece: string)
    requires start <= |text|
  {
    piece <= text[start..]
  }

  /** The first of `specials` that starts `text[start..]`, or the list's length. */
  method FirstMatching(specials: seq<(string, nat)>, text: string, start: nat) returns (k: nat)
    requires start <= |text|
    ensures k <= |specials| && (k < |specials| ==> At(text, start, specials[k].0))
    ensures forall j | 0 <= j < k :: !At(text, start, specials[j].0)
  {
    k := 0;
    while k < |specials| && !At(text, start, specials[k].0)
      invariant k <= |specials|
      invariant forall j | 0 <= j < k :: !At(text, start, specials[j].0)
    {
      k := k + 1;
    }
  }

  lemma FirstIsLongest(v: Vocab, text: string, start: nat, k: nat, o: Found)
    requires Consistent(v) && start < |text| && k < |v.specials| && At(text, start, v.specials[k].0)
    requires forall j | 0 <= j < k :: !At(text, start, v.specials[j].0)
    requires MatchesAt(v, text, o) && o.start == start
    ensures |o.piece| <= |v.specials[k].0|
  {
    var j :| 0 <= j < |v.specials| && v.specials[j] == (o.piece, o.id);
    assert At(text, start, v.specials[j].0);
    assert ByteLen(v.specials[k].0) >= ByteLen(v.specials[j].0);
    ByteLenOrdersPrefixes(v.specials[k].0, o.piece, text[start..]);
  }

  /** `find_special`: the leftmost-longest match, or proof that there is none. */
  method FindSpecial(v: Vocab, text: string) returns (m: Found)
    requires Consistent(v)
    ensures m.Special? ==> LeftmostLongest(v, text, m)
    ensures m.Nothing? ==> forall o :: !MatchesAt(v, text, o)
  {
    var start := 0;
    while start < |text|
      invariant start <= |text|
      invariant forall o | MatchesAt(v, text, o) :: start <= o.start
    {
      if text[start] == '<' {
        var k := FirstMatching(v.specials, text, start);
        if k < |v.specials| {
          m := Special(start, v.specials[k].0, v.specials[k].1);
          assert v.specials[k] in v.specials;
          assert MatchesAt(v, text, m);
          forall o | MatchesAt(v, text, o)
            ensures m.start < o.start || (m.start == o.start && |o.piece| <= |m.piece|)
          {
            if o.start == start {
              FirstIsLongest(v, text, start, k, o);
            }
          }
          return;
        }
        NothingHere(v, text, start);
      }
      start := start + 1;
    }
    m := Nothing;
  }

  lemma NothingHere(v: Vocab, text: string, start: nat)
    requires start < |text| && forall j | 0 <= j < |v.specials| :: !At(text, start, v.specials[j].0)
    ensures forall o | MatchesAt(v, text, o) :: o.start != start
  {
    forall o | MatchesAt(v, text, o)
      ensures o.start != start
    {
      var j :| 0 <= j < |v.specials| && v.specials[j] == (o.piece, o.id);
      assert !At(text, start, v.specials[j].0);
    }
  }

  ghost function FirstMatch(v: Vocab, text: string): (m: Found)
    ensures m.Special? ==> LeftmostLongest(v, text, m) && m.start < |text| && m.start + |m.piece| <= |text|
    ensures m.Nothing? ==> forall o :: !LeftmostLongest(v, text, o)
  {
    if m: Found :| LeftmostLongest(v, text, m) then m else Nothing
  }

  // ---------------------------------------------------- when splitting ends

  /** The text left after one turn of the splitting loop. */
  ghost function Rest(v: Vocab, text: string): string {
    var m := FirstMatch(v, text);
    if m.Special? then text[m.start + |m.piece|..] else []
  }

  /** The loop stops within `n` turns. */
  ghost predicate StopsWithin(v: Vocab, text: string, n: nat)
    decreases n
  {
    text == [] || (n > 0 && StopsWithin(v, Rest(v, text), n - 1))
  }

  /** The loop ends on `text`. */
  ghost predicate Stops(v: Vocab, text: string) {
    exists n :: StopsWithin(v, text, n)
  }

  /** Every special the split takes out of `text` consumes something. */
  ghost predicate Ends(v: Vocab, text: string)
    decreases |text|
  {
    var m := FirstMatch(v, text);
    m.Special? ==> m.piece != [] && Ends(v, Rest(v, text))
  }

  /** No special is empty, or `<` itself is one and is always taken before the empty one. */
  predicate Advances(v: Vocab) {
    || (forall k | 0 <= k < |v.specials| :: v.specials[k].0 != [])
    || (exists k | 0 <= k < |v.specials| :: v.specials[k].0 == "<")
  }

  lemma {:induction false} MoreTurns(v: Vocab, text: string, n: nat, more: nat)
    requires StopsWithin(v, text, n) && n <= more
    ensures StopsWithin(v, text, more)
    decreases n
  {
    hide Rest;
    if text != [] {
      MoreTurns(v, Rest(v, text), n - 1, more - 1);
    }
  }

  lemma {:induction false} EndsStops(v: Vocab, text: string)
    requires Ends(v, text)
    ensures StopsWithin(v, text, |text|)
    decreases |text|
  {
    hide FirstMatch, LeftmostLongest;
    if text != [] {
      var rest := Rest(v, text);
      if FirstMatch(v, text).Special? {
        EndsStops(v, rest);
      }
      MoreTurns(v, rest, |rest|, |text| - 1);
    }
  }

  /** After an empty match the same empty match comes first again, and nothing is consumed ever after. */
  lemma EmptyMatchStays(v: Vocab, text: string)
    requires Consistent(v) && FirstMatch(v, text).Special? && FirstMatch(v, text).piece == []
    ensures text != [] && FirstMatch(v, Rest(v, text)) == Special(0, [], FirstMatch(v, text).id) && !Ends(v, Rest(v, text))
  {
    var m := FirstMatch(v, text);
    var rest, again := text[m.start..], Special(0, [], m.id);
    forall o | MatchesAt(v, rest, o)
      ensures again.start < o.start || (again.start == o.start && |o.piece| <= |again.piece|)
    {
      assert rest[o.start..] == text[m.start + o.start..];
      assert MatchesAt(v, text, o.(start := m.start + o.start));
    }
    assert LeftmostLongest(v, rest, again);
    MatchIsUnique(v, rest, again, FirstMatch(v, rest));
  }

  lemma {:induction false} StopsOnlyIfEnds(v: Vocab, text: string, n: nat)
    requires Consistent(v) && StopsWithin(v, text, n)
    ensures Ends(v, text)
    decreases n
  {
    hide LeftmostLongest;
    if FirstMatch(v, text).Special? {
      StopsOnlyIfEnds(v, Rest(v, text), n - 1);
      if FirstMatch(v, text).piece == [] {
        EmptyMatchStays(v, text);
      }
    }
  }

  /** On one text, the loop ends exactly when every special it takes consumes something. */
  lemma EndsIff(v: Vocab, text: string)
    requires Consistent(v)
    ensures Stops(v, text) <==> Ends(v, text)
  {
    if Ends(v, text) {
      EndsStops(v, text);
    } else if n :| StopsWithin(v, text, n) {
      StopsOnlyIfEnds(v, text, n);
    }
  }

  lemma {:induction false} AdvancingEnds(v: Vocab, text: string)
    requires Advances(v)
    ensures Ends(v, text)
    decreases |text|
  {
    var m := FirstMatch(v, text);
    if m.Special? {
      if k :| 0 <= k < |v.specials| && v.specials[k].0 == "<" {
        assert MatchesAt(v, text, Special(m.start, "<", v.specials[k].1));
      }
      AdvancingEnds(v, Rest(v, text));
    }
  }

  /** An empty special without `<` as a special: on the text `<` the loop takes the empty special for ever. */
  lemma {:induction false} NeverStops(v: Vocab, n: nat)
    requires Consistent(v) && !Advances(v)
    ensures Rest(v, "<") == "<" && !StopsWithin(v, "<", n)
  {
    var k :| 0 <= k < |v.specials| && v.specials[k].0 == [];
    var m := FirstMatch(v, "<");
    var empty := Special(0, [], v.specials[k].1);
    assert MatchesAt(v, "<", empty);
    forall o | MatchesAt(v, "<", o)
      ensures o.start == 0 && o.piece == []
    {
      var j :| 0 <= j < |v.specials| && v.specials[j] == (o.piece, o.id);
      assert o.piece <= "<"[0..] == "<";
    }
    assert LeftmostLongest(v, "<", empty);
    assert m.piece == [] && m.start == 0;
    if n > 0 {
      NeverStops(v, n - 1);
    }
  }

  /** The loop ends on every text exactly when no special is empty or `<` is a special. */
  lemma SplittingEndsIff(v: Vocab)
    requires Consistent(v)
    ensures (forall text :: Stops(v, text)) <==> Advances(v)
  {
    hide Consistent, StopsWithin, Advances;
    if Advances(v) {
      forall text
        ensures Stops(v, text)
      {
        AdvancingEnds(v, text);
        EndsIff(v, text);
      }
    } else {
      if Stops(v, "<") {
        var n :| StopsWithin(v, "<", n);
        NeverStops(v, n);
      }
    }
  }

  // ----------------------------------------------------------------- encode

  /** What `encode` computes with special matching on. */
  ghost function MatchIds(v: Vocab, text: string): seq<nat>
    requires Consistent(v) && Ends(v, text)
    decreases |text|
  {
    var m := FirstMatch(v, text);
    if m.Special? then SegmentIds(v, text[..m.start]) + [m.id] + MatchIds(v, Rest(v, text))
    else SegmentIds(v, text)
  }

  lemma MatchStep(v: Vocab, text: string, m: Found)
    requires Consistent(v) && Ends(v, text) && LeftmostLongest(v, text, m)
    ensures |v.byteToId| == 256 && m.Special? && m.start + |m.piece| <= |text| && m.piece != []
    ensures var rest := text[m.start + |m.piece|..];
            Ends(v, rest) && MatchIds(v, text) == SegmentIds(v, text[..m.start]) + [m.id] + MatchIds(v, rest)
  {
    hide SegmentIds, LeftmostLongest, MatchesAt, FirstMatch, PiecesIndexed, MergesSpell, RanksDistinct, SpecialsIndexed, LongestFirst;
    MatchIsUnique(v, text, m, FirstMatch(v, text));
  }

  /** `encode`. */
  method EncodeText(v: Vocab, text: string, mode: SpecialTokens) returns (out: seq<nat>)
    requires Consistent(v) && 4 * |text| <= 0xFFFF_FFFF_FFFF_FFFF
    requires mode == Match ==> Ends(v, text)
    ensures out == if mode == Plain then SegmentIds(v, text) else MatchIds(v, text)
  {
    assert |v.byteToId| == 256;
    hide Consistent, LeftmostLongest, SegmentIds, MatchIds, Ends, MatchesAt;
    out := [];
    if mode == Plain {
      out := EncodeSegment(v, text, out);
      return;
    }
    var rest := text;
    while rest != []
      invariant Countable(rest) && Ends(v, rest) && MatchIds(v, text) == out + MatchIds(v, rest)
      decreases |rest|
    {
      var m := FindSpecial(v, rest);
      if m.Nothing? {
        NoMatchIds(v, rest);
        out := EncodeSegment(v, rest, out);
        return;
      }
      MatchStep(v, rest, m);
      Reassociate(out, SegmentIds(v, rest[..m.start]), [m.id], MatchIds(v, rest[m.start + |m.piece|..]));
      out := EncodeSegment(v, rest[..m.start], out);
      out := out + [m.id];
      rest := rest[m.start + |m.piece|..];
    }
    NoTextIds(v);
  }

  lemma Reassociate(a: seq<nat>, b: seq<nat>, c: seq<nat>, d: seq<nat>)
    ensures a + (b + c + d) == (a + b) + c + d
  {
  }

  lemma NoMatchIds(v: Vocab, text: string)
    requires Consistent(v) && forall o :: !MatchesAt(v, text, o)
    ensures Ends(v, text) && MatchIds(v, text) == SegmentIds(v, text)
  {
  }

  lemma NoTextIds(v: Vocab)
    requires Consistent(v)
    ensures Ends(v, []) && MatchIds(v, []) == []
  {
    assert InitIds(v, []) == [];
    NothingToMerge(v.merges, []);
    NoMatchIds(v, []);
  }

  // ----------------------------------------------------- the whole round trip

  /** What the encoded text decodes to. */
  ghost function MatchBack(v: Vocab, text: string): (s: string)
    requires Ends(v, text)
    ensures |s| == |text|
    decreases |text|
  {
    var m := FirstMatch(v, text);
    if m.Special? then TextBack(v, text[..m.start]) + Shown(m.piece) + MatchBack(v, Rest(v, text)) else TextBack(v, text)
  }

  lemma {:induction false} MatchRun(v: Vocab, text: string)
    requires Consistent(v) && MergesAvoidBytes(v) && Ends(v, text)
    ensures InRange(v, MatchIds(v, text)) && Run(v, MatchIds(v, text), []) == (MatchBack(v, text), [])
    decreases |text|
  {
    assert |v.byteToId| == 256;
    hide Consistent, LeftmostLongest, SegmentIds, Shown, MergesAvoidBytes, Run, InRange, TextBack;
    var m := FirstMatch(v, text);
    if m.Special? {
      var a, b := text[..m.start], Rest(v, text);
      SegmentRun(v, a);
      SpecialRun(v, text, m);
      MatchRun(v, b);
      JoinRuns(v, SegmentIds(v, a), m.id, MatchIds(v, b), TextBack(v, a), Shown(m.piece), MatchBack(v, b));
    } else {
      SegmentRun(v, text);
    }
  }

  lemma SpecialRun(v: Vocab, text: string, m: Found)
    requires Consistent(v) && LeftmostLongest(v, text, m)
    ensures InRange(v, [m.id]) && Run(v, [m.id], []) == (Shown(m.piece), [])
  {
    var k :| 0 <= k < |v.specials| && v.specials[k] == (m.piece, m.id);
    RunOne(v, m.id, []);
    assert [] + Shown(m.piece) == Shown(m.piece);
  }

  lemma JoinRuns(v: Vocab, x: seq<nat>, id: nat, y: seq<nat>, a: string, piece: string, b: string)
    requires InRange(v, x) && InRange(v, [id]) && InRange(v, y)
    requires Run(v, x, []) == (a, []) && Run(v, [id], []) == (piece, []) && Run(v, y, []) == (b, [])
    ensures InRange(v, x + [id] + y) && Run(v, x + [id] + y, []) == (a + piece + b, [])
  {
    RunAppend(v, x, [id], []);
    RunAppend(v, x + [id], y, []);
  }

  /** Every plain stretch of the split comes back, and every special in it prints as itself. */
  ghost predicate Returns(v: Vocab, text: string)
    requires Ends(v, text)
    decreases |text|
  {
    var m := FirstMatch(v, text);
    if m.Special? then ComesBack(v, text[..m.start]) && MARK !in m.piece && Returns(v, Rest(v, text)) else ComesBack(v, text)
  }

  lemma ShownIff(piece: string)
    ensures Shown(piece) == piece <==> MARK !in piece
  {
    if MARK in piece {
      var i :| 0 <= i < |piece| && piece[i] == MARK;
      assert Shown(piece)[i] == ' ';
    } else {
      assert forall i | 0 <= i < |piece| :: Shown(piece)[i] == piece[i];
    }
  }

  lemma SameParts(a: string, b: string, c: string, x: string, y: string, z: string)
    requires |a| == |x| && |b| == |y| && |c| == |z|
    ensures a + b + c == x + y + z <==> a == x && b == y && c == z
  {
    if a + b + c == x + y + z {
      assert a == (a + b + c)[..|a|] && x == (x + y + z)[..|a|];
      assert b == (a + b + c)[|a|..|a| + |b|] && y == (x + y + z)[|a|..|a| + |b|];
      assert c == (a + b + c)[|a| + |b|..] && z == (x + y + z)[|a| + |b|..];
    }
  }

  lemma {:induction false} MatchBackIff(v: Vocab, text: string)
    requires Ends(v, text)
    ensures MatchBack(v, text) == text <==> Returns(v, text)
    decreases |text|
  {
    hide ComesBack, TextBack, Shown;
    var m := FirstMatch(v, text);
    if m.Special? {
      var a, b := text[..m.start], Rest(v, text);
      TextBackIff(v, a);
      ShownIff(m.piece);
      MatchBackIff(v, b);
      assert text == a + m.piece + b;
      SameParts(TextBack(v, a), Shown(m.piece), MatchBack(v, b), a, m.piece, b);
    } else {
      TextBackIff(v, text);
    }
  }

  lemma {:induction false} MarkedReturns(v: Vocab, text: string)
    requires [MARK] in v.pieceToId && Ends(v, text)
    ensures Returns(v, text) <==> MARK !in text
    decreases |text|
  {
    var m := FirstMatch(v, text);
    if m.Special? {
      MarkedReturns(v, Rest(v, text));
      assert text == text[..m.start] + m.piece + Rest(v, text);
    }
  }

  /**
    Round trip with special matching, exactly, whatever specials the text spells: with the marker piece in the
    vocabulary it comes back iff it holds no marker; without it, iff no plain stretch holds a space and no
    special in it a marker.
   */
  lemma MatchRoundTripIff(v: Vocab, text: string)
    requires Consistent(v) && MergesAvoidBytes(v) && Ends(v, text)
    ensures InRange(v, MatchIds(v, text))
    ensures Decoded(v, MatchIds(v, text)) == text <==> Returns(v, text)
    ensures [MARK] in v.pieceToId ==> (Returns(v, text) <==> MARK !in text)
  {
    MatchRun(v, text);
    MatchBackIff(v, text);
    if [MARK] in v.pieceToId {
      MarkedReturns(v, text);
    }
    assert MatchBack(v, text) + [] == MatchBack(v, text);
  }
}
