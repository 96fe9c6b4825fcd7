/**
  Printing generated text while watching for stop sequences: what might be the
  start of a stop is held back. Text is UTF-8 bytes, as the holdback counts them.
 */
module StopStreams {
  import opened Utf8

  type Bytes = seq<byte>

  /** `is_char_boundary`. */
  predicate Boundary(text: Bytes, i: nat) {
    i == |text| || (i < |text| && !IsCont(text[i]))
  }

  /** Whole UTF-8 text never starts inside a character. */
  predicate StartsWhole(s: Bytes) {
    s != [] ==> !IsCont(s[0])
  }

  /** Encoded texts are whole. */
  lemma EncodedIsWhole(texts: seq<string>)
    ensures Whole(seq(|texts|, k requires 0 <= k < |texts| => EncodeAll(texts[k])))
  {
    forall k | 0 <= k < |texts|
      ensures StartsWhole(EncodeAll(texts[k]))
    {
      if texts[k] != [] {
        assert EncodeAll(texts[k])[0] == Encode(texts[k][0])[0];
      }
    }
  }

  /** Offset `i` of the encoded text is where its first `k` characters end. */
  predicate EndsAfter(s: string, i: nat, k: nat) {
    k <= |s| && i == |EncodeAll(s[..k])|
  }

  lemma EncodedFirst(c: char, j: nat)
    requires j < |Encode(c)|
    ensures IsCont(Encode(c)[j]) <==> j > 0
  {
  }

  lemma EndsPastFirst(s: string, i: nat, k: nat)
    requires s != []
    ensures EndsAfter(s, i, k) && k > 0 ==> i >= |Encode(s[0])| && EndsAfter(s[1..], i - |Encode(s[0])|, k - 1)
    ensures EndsAfter(s, i, 0) ==> i == 0
  {
    if 0 < k <= |s| {
      assert s[..k][1..] == s[1..][..k - 1] && s[..k][0] == s[0];
    }
  }

  /** The boundaries of encoded text are exactly the ends of its characters. */
  lemma {:induction false} BoundaryIff(s: string, i: nat)
    ensures Boundary(EncodeAll(s), i) <==> exists k: nat :: EndsAfter(s, i, k)
    decreases |s|
  {
    hide Encode;
    if s == [] {
      assert s[..0] == [];
      assert i == 0 ==> EndsAfter(s, i, 0);
    } else {
      var first, rest := |Encode(s[0])|, EncodeAll(s[1..]);
      assert EncodeAll(s) == Encode(s[0]) + rest;
      if i < first {
        EncodedFirst(s[0], i);
        assert s[..0] == [] && (i == 0 ==> EndsAfter(s, i, 0));
        forall k: nat {
          EndsPastFirst(s, i, k);
        }
      } else {
        var tail, j := s[1..], i - first;
        BoundaryIff(tail, j);
        assert i < |EncodeAll(s)| ==> EncodeAll(s)[i] == rest[i - first];
        if k: nat :| EndsAfter(tail, j, k) {
          assert s[..k + 1][1..] == s[1..][..k] && s[..k + 1][0] == s[0];
          assert EndsAfter(s, i, k + 1);
        }
        if k: nat :| EndsAfter(s, i, k) {
          EndsPastFirst(s, i, k);
          assert EndsAfter(tail, j, k - 1);
        }
      }
    }
  }

  predicate Whole(parts: seq<Bytes>) {
    forall k | 0 <= k < |parts| :: StartsWhole(parts[k])
  }

  predicate Occurs(text: Bytes, s: Bytes, i: nat) {
    i + |s| <= |text| && text[i..i + |s|] == s
  }

  /** `find`: the first occurrence at or after `i`, or one past the end. */
  function FindFrom(text: Bytes, s: Bytes, i: nat): (at: nat)
    requires i <= |text|
    ensures i <= at <= |text| + 1 && (at <= |text| ==> Occurs(text, s, at))
    ensures forall j: nat | i <= j < at :: !Occurs(text, s, j)
    decreases |text| - i
  {
    if Occurs(text, s, i) then i else if i == |text| then |text| + 1 else FindFrom(text, s, i + 1)
  }

  /** The earliest occurrence of any stop, or one past the end. */
  function Earliest(stops: seq<Bytes>, text: Bytes): (at: nat)
    ensures at <= |text| + 1
    ensures at <= |text| ==> exists k | 0 <= k < |stops| :: Occurs(text, stops[k], at)
    ensures forall k, j: nat | 0 <= k < |stops| && j < at :: !Occurs(text, stops[k], j)
  {
    if stops == [] then |text| + 1
    else
      var n := |stops| - 1;
      var rest, here := Earliest(stops[..n], text), FindFrom(text, stops[n], 0);
      assert forall k | 0 <= k < n :: stops[..n][k] == stops[k];
      if here < rest then here else rest
  }

  predicate NoMatch(stops: seq<Bytes>, text: Bytes) {
    Earliest(stops, text) == |text| + 1
  }

  // -------------------------------------------------------------- holdback

  /** The last `m` bytes are a proper prefix of the stop, starting at a character. */
  predicate Overlap(text: Bytes, s: Bytes, m: nat) {
    1 <= m < |s| && m <= |text| && Boundary(text, |text| - m) && text[|text| - m..] <= s
  }

  function OverlapFrom(text: Bytes, s: Bytes, m: nat): (l: nat)
    ensures l <= m && (l == 0 || Overlap(text, s, l))
    ensures forall k: nat | l < k <= m :: !Overlap(text, s, k)
  {
    if m == 0 then 0 else if Overlap(text, s, m) then m else OverlapFrom(text, s, m - 1)
  }

  function MaxOverlap(text: Bytes, s: Bytes): nat {
    var proper := if |s| == 0 then 0 else |s| - 1;
    if proper < |text| then proper else |text|
  }

  /** `tail_overlap`, as a function: the longest overlap, or 0. */
  function TailOverlapOf(text: Bytes, s: Bytes): (l: nat)
    ensures l <= |text| && (l == 0 || Overlap(text, s, l))
    ensures forall k: nat | l < k :: !Overlap(text, s, k)
  {
    OverlapFrom(text, s, MaxOverlap(text, s))
  }

  /** `tail_overlap`. */
  method TailOverlap(text: Bytes, s: Bytes) returns (l: nat)
    ensures l == TailOverlapOf(text, s)
  {
    l := MaxOverlap(text, s);
    while l > 0
      invariant OverlapFrom(text, s, MaxOverlap(text, s)) == OverlapFrom(text, s, l) && l <= MaxOverlap(text, s)
    {
      if Boundary(text, |text| - l) && text[|text| - l..] <= s {
        return;
      }
      l := l - 1;
    }
  }

  /** How many trailing bytes might still become a stop. */
  function Holdback(stops: seq<Bytes>, text: Bytes): (h: nat)
    ensures h <= |text|
  {
    if stops == [] then 0
    else
      var rest, here := Holdback(stops[..|stops| - 1], text), TailOverlapOf(text, stops[|stops| - 1]);
      if here > rest then here else rest
  }

  lemma {:induction false} HoldbackCovers(stops: seq<Bytes>, text: Bytes, k: nat)
    requires k < |stops|
    ensures TailOverlapOf(text, stops[k]) <= Holdback(stops, text)
    decreases |stops|
  {
    hide TailOverlapOf;
    if k < |stops| - 1 {
      HoldbackCovers(stops[..|stops| - 1], text, k);
    }
  }

  /** The holdback is some stop's overlap, so it starts at a character. */
  lemma {:induction false} HoldbackIsOverlap(stops: seq<Bytes>, text: Bytes) returns (k: nat)
    requires Holdback(stops, text) > 0
    ensures k < |stops| && Overlap(text, stops[k], Holdback(stops, text))
    decreases |stops|
  {
    hide Overlap;
    k := |stops| - 1;
    if Holdback(stops, text) != TailOverlapOf(text, stops[k]) {
      k := HoldbackIsOverlap(stops[..|stops| - 1], text);
    }
  }

  lemma HoldbackAtBoundary(stops: seq<Bytes>, text: Bytes)
    ensures Boundary(text, |text| - Holdback(stops, text))
  {
    if Holdback(stops, text) > 0 {
      var k := HoldbackIsOverlap(stops, text);
    }
  }

  /** A match that only later text completes overlaps the end of what is there. */
  lemma MatchIsOverlap(text: Bytes, more: Bytes, s: Bytes, at: nat)
    requires Occurs(text + more, s, at) && at < |text| && !Occurs(text, s, at) && StartsWhole(s)
    ensures Overlap(text, s, |text| - at)
  {
    var t, m := text + more, |text| - at;
    if m < |s| {
      assert t[at..at + |s|][..m] == text[at..];
      assert t[at..at + |s|][0] == text[at];
    }
  }

  /** What is not held back cannot be part of a stop that completes later: no match can start in it. */
  lemma HoldbackCoversLaterMatches(stops: seq<Bytes>, text: Bytes, more: Bytes, k: nat, at: nat)
    requires k < |stops| && NoMatch(stops, text) && StartsWhole(stops[k]) && Occurs(text + more, stops[k], at)
    ensures at >= |text| - Holdback(stops, text)
  {
    hide Overlap, Occurs, Boundary, StartsWhole;
    if at < |text| {
      assert !Occurs(text, stops[k], at);
      MatchIsOverlap(text, more, stops[k], at);
      HoldbackCovers(stops, text, k);
    }
  }

  lemma OverlapCompletes(text: Bytes, s: Bytes, m: nat)
    requires Overlap(text, s, m)
    ensures Occurs(text + s[m..], s, |text| - m)
  {
    var t, at := text + s[m..], |text| - m;
    assert text[at..] == s[..m];
    assert t[at..at + |s|] == text[at..] + s[m..];
  }

  /** The holdback is tight: what is withheld is the start of some stop, so some continuation completes it right there. */
  lemma HoldbackIsNeeded(stops: seq<Bytes>, text: Bytes) returns (k: nat, more: Bytes)
    requires Holdback(stops, text) > 0
    ensures k < |stops| && more != [] && Occurs(text + more, stops[k], |text| - Holdback(stops, text))
  {
    k := HoldbackIsOverlap(stops, text);
    OverlapCompletes(text, stops[k], Holdback(stops, text));
    more := stops[k][Holdback(stops, text)..];
  }

  // ------------------------------------------------------------- the printer

  function Joined(pieces: seq<Bytes>): Bytes {
    if pieces == [] then [] else Joined(pieces[..|pieces| - 1]) + pieces[|pieces| - 1]
  }

  /** The callback's captured variables, and what has reached the terminal. */
  class Printer {
    const stops: seq<Bytes>
    var textOut: Bytes
    var printed: nat
    var shown: Bytes

    /** While nothing has matched, everything but the holdback is on screen. */
    predicate Valid()
      reads this
    {
      && Whole(stops)
      && (textOut == [] || NoMatch(stops, textOut))
      && printed == |textOut| - Holdback(stops, textOut)
      && shown == textOut[..printed]
    }

    constructor (stops: seq<Bytes>)
      requires Whole(stops)
      ensures Valid() && textOut == [] && this.stops == stops
    {
      this.stops := stops;
      textOut, printed, shown := [], 0, [];
      new;
      assert Holdback(stops, []) == 0;
    }

    /** The callback, once `piece` has been decoded: false stops the generation. */
    method OnText(piece: Bytes) returns (goOn: bool)
      requires Valid() && StartsWhole(piece)
      modifies this
      ensures textOut == old(textOut) + piece && goOn == NoMatch(stops, textOut)
      ensures goOn ==> Valid() && printed >= old(printed)
      ensures !goOn ==> shown == textOut[..Earliest(stops, textOut)] && old(shown) <= shown && printed == |textOut|
    {
      hide Earliest, Holdback, Whole, StartsWhole;
      ghost var before := textOut;
      textOut := textOut + piece;
      var at := Earliest(stops, textOut);
      if at <= |textOut| {
        PrintedBeforeMatch(stops, before, piece);
        assert shown == textOut[..printed];
        assert shown + textOut[printed..at] == textOut[..at];
        shown := shown + textOut[printed..at];
        printed := |textOut|;
        return false;
      }
      SafeGrows(stops, before, piece);
      assert shown == textOut[..printed];
      ShowSafe();
      goOn := true;
    }

    /** Print up to the holdback; it starts at a character, so the search for a boundary never steps back. */
    method ShowSafe()
      requires Whole(stops) && (textOut == [] || NoMatch(stops, textOut))
      requires printed <= |textOut| - Holdback(stops, textOut) && shown == textOut[..printed]
      modifies `printed, `shown
      ensures Valid() && printed >= old(printed)
    {
      hide Holdback, NoMatch, Whole;
      var holdback := WorstOverlap();
      HoldbackAtBoundary(stops, textOut);
      var safe := |textOut| - holdback;
      if safe > printed {
        // A character starts at `safe`: the source's search backwards for one never moves.
        assert Boundary(textOut, safe);
        assert shown + textOut[printed..safe] == textOut[..safe];
        shown := shown + textOut[printed..safe];
        printed := safe;
      }
    }

    /** The largest overlap of any stop. */
    method WorstOverlap() returns (h: nat)
      ensures h == Holdback(stops, textOut)
    {
      hide TailOverlapOf;
      h := 0;
      var k := 0;
      assert stops[..0] == [];
      while k < |stops|
        invariant k <= |stops| && h == Holdback(stops[..k], textOut)
      {
        assert stops[..k + 1][..k] == stops[..k];
        var o := TailOverlap(textOut, stops[k]);
        h := if o > h then o else h;
        k := k + 1;
      }
      assert stops[..k] == stops;
    }

    /** After a generation that was not aborted: the decoder's remainder and everything held back. */
    method Finish(remainder: Bytes)
      requires Valid()
      modifies this
      ensures textOut == old(textOut) + remainder && shown == textOut
    {
      textOut := textOut + remainder;
      assert shown + textOut[printed..] == textOut;
      shown := shown + textOut[printed..];
      printed := |textOut|;
    }
  }

  /** When a stop matches, nothing past its start is on screen. */
  lemma PrintedBeforeMatch(stops: seq<Bytes>, text: Bytes, piece: Bytes)
    requires Whole(stops) && (text == [] || NoMatch(stops, text)) && !NoMatch(stops, text + piece)
    ensures |text| - Holdback(stops, text) <= Earliest(stops, text + piece)
  {
    var at := Earliest(stops, text + piece);
    var k :| 0 <= k < |stops| && Occurs(text + piece, stops[k], at);
    if text != [] {
      HoldbackCoversLaterMatches(stops, text, piece, k, at);
    }
  }

  /** The amount printed never goes back: a shorter remainder would have been held back before. */
  lemma SafeGrows(stops: seq<Bytes>, text: Bytes, piece: Bytes)
    requires Whole(stops) && (text == [] || NoMatch(stops, text))
    ensures |text| - Holdback(stops, text) <= |text + piece| - Holdback(stops, text + piece)
  {
    hide Holdback, NoMatch, Occurs, StartsWhole, Earliest;
    var t, h := text + piece, Holdback(stops, text + piece);
    if |t| - h < |text| && text != [] {
      var k, more := HoldbackIsNeeded(stops, t);
      assert t + more == text + (piece + more);
      HoldbackCoversLaterMatches(stops, text, piece + more, k, |t| - h);
    }
  }

  /** Every slice that is printed lies between character boundaries of the grown text. */
  lemma SlicesAreWhole(stops: seq<Bytes>, text: Bytes, piece: Bytes)
    requires Whole(stops) && StartsWhole(text) && StartsWhole(piece)
    ensures Boundary(text + piece, |text| - Holdback(stops, text))
    ensures Earliest(stops, text + piece) <= |text + piece| ==> Boundary(text + piece, Earliest(stops, text + piece))
  {
    HoldbackAtBoundary(stops, text);
    var t, at := text + piece, Earliest(stops, text + piece);
    if at <= |t| {
      var k :| 0 <= k < |stops| && Occurs(t, stops[k], at);
      assert stops[k] != [] ==> t[at..at + |stops[k]|][0] == t[at];
      if stops[k] == [] && t != [] {
        assert Occurs(t, [], 0);
      }
    }
  }

  /** Piece `x` completes a stop. */
  predicate Completes(stops: seq<Bytes>, pieces: seq<Bytes>, x: nat)
    requires x < |pieces|
  {
    !NoMatch(stops, Joined(pieces[..x + 1]))
  }

  /** The index of the first piece whose arrival completes a stop, or the number of pieces. */
  function StopAt(stops: seq<Bytes>, pieces: seq<Bytes>, i: nat): (j: nat)
    requires i <= |pieces|
    ensures i <= j <= |pieces| && (j < |pieces| ==> Completes(stops, pieces, j))
    ensures forall x | i <= x < j :: !Completes(stops, pieces, x)
    decreases |pieces| - i
  {
    if i == |pieces| || Completes(stops, pieces, i) then i else StopAt(stops, pieces, i + 1)
  }

  /** What a whole generation shows. */
  function ShownText(stops: seq<Bytes>, pieces: seq<Bytes>, remainder: Bytes): Bytes {
    var j := StopAt(stops, pieces, 0);
    if j == |pieces| then Joined(pieces) + remainder
    else
      var text := Joined(pieces[..j + 1]);
      text[..Earliest(stops, text)]
  }

  /** A generation: pieces until a stop completes or they run out; then the remainder, unless stopped. */
  method Generation(stops: seq<Bytes>, pieces: seq<Bytes>, remainder: Bytes) returns (shown: Bytes)
    requires Whole(stops) && Whole(pieces)
    ensures shown == ShownText(stops, pieces, remainder)
  {
    hide NoMatch, Earliest, Holdback, StartsWhole;
    var p := new Printer(stops);
    var i := 0;
    assert pieces[..0] == [];
    while i < |pieces|
      invariant i <= |pieces| && p.Valid() && p.stops == stops && p.textOut == Joined(pieces[..i])
      invariant StopAt(stops, pieces, 0) == StopAt(stops, pieces, i)
    {
      assert pieces[..i + 1][..i] == pieces[..i];
      var goOn := p.OnText(pieces[i]);
      if !goOn {
        return p.shown;
      }
      i := i + 1;
    }
    assert pieces[..i] == pieces;
    p.Finish(remainder);
    shown := p.shown;
  }
}
