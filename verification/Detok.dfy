/** Streaming detokenisation: byte tokens in, complete code points out. */
module Detok {
  import opened Utf8

  /** What a byte sequence has settled: the text that can no longer change, and the undecided tail. */
  function Drain(bs: seq<byte>): (r: (string, seq<byte>))
    ensures |r.1| <= 3
    ensures r.1 != [] ==> Scan(r.1).Partial?
    decreases |bs|
  {
    if bs == [] then ([], [])
    else match Scan(bs)
      case Char(n, c) => (var r := Drain(bs[n..]); ([c] + r.0, r.1))
      case Bad(n) => (var r := Drain(bs[n..]); ([REPLACEMENT] + r.0, r.1))
      case Partial => ([], bs)
  }

  /** The lossy decoding is the settled text, plus one replacement for an undecided tail. */
  lemma {:induction false} LossyIsDrain(bs: seq<byte>)
    ensures Lossy(bs) == Drain(bs).0 + if Drain(bs).1 == [] then [] else [REPLACEMENT]
    decreases |bs|
  {
    hide Scan;
    if bs != [] && !Scan(bs).Partial? {
      LossyIsDrain(bs[Scan(bs).n..]);
    }
  }

  /** Draining can be interrupted anywhere: settle what is there, then continue from the tail. */
  lemma {:induction false} DrainIsIncremental(bs: seq<byte>, more: seq<byte>)
    ensures Drain(bs + more) == (Drain(bs).0 + Drain(Drain(bs).1 + more).0, Drain(Drain(bs).1 + more).1)
    decreases |bs|
  {
    hide Scan;
    if bs == [] || Scan(bs).Partial? {
      assert Drain(bs) == ([], bs);
      assert [] + Drain(bs + more).0 == Drain(bs + more).0;
      assert [] + more == more;
    } else {
      ScanIsStable(bs, more);
      var n := Scan(bs).n;
      var d := Drain(bs[n..]);
      DrainIsIncremental(bs[n..], more);
      assert (bs + more)[n..] == bs[n..] + more;
      var h := if Scan(bs).Char? then Scan(bs).c else REPLACEMENT;
      assert Drain(bs) == ([h] + d.0, d.1);
      assert [h] + (d.0 + Drain(d.1 + more).0) == ([h] + d.0) + Drain(d.1 + more).0;
    }
  }

  /** Text already emitted is never taken back, whatever arrives later. */
  lemma EmittedIsPrefix(bs: seq<byte>, more: seq<byte>)
    ensures Drain(bs).0 <= Lossy(bs + more)
  {
    DrainIsIncremental(bs, more);
    LossyIsDrain(bs + more);
  }

  // ------------------------------------------------ from_utf8 and Drain

  lemma CharIsLocal(bs: seq<byte>, u: nat)
    requires bs != [] && Scan(bs).Char? && Scan(bs).n <= u <= |bs|
    ensures Scan(bs[..u]) == Scan(bs)
  {
  }

  /** What `from_utf8` reports about `bs` is how `Drain` reads it. */
  predicate CheckAgrees(bs: seq<byte>) {
    match FromUtf8(bs)
    case Valid(s) => Drain(bs) == (s, [])
    case Invalid(u, e) =>
      && FromUtf8(bs[..u]).Valid?
      && var s := FromUtf8(bs[..u]).s;
         match e
         case None => Drain(bs) == (s, bs[u..])
         case Some(n) => Drain(bs) == (s + [REPLACEMENT] + Drain(bs[u + n..]).0, Drain(bs[u + n..]).1)
  }

  /** The reported valid prefix is valid, and what follows it is what the error says. */
  lemma {:induction false} CheckedDrain(bs: seq<byte>)
    ensures CheckAgrees(bs)
    decreases |bs|, 1
  {
    hide Scan;
    if bs == [] {
    } else if Scan(bs).Char? {
      CheckedDrainStep(bs);
    } else {
      assert bs[..0] == [] && bs[0..] == bs;
      assert FromUtf8(bs[..0]) == Valid([]);
      if Scan(bs).Bad? {
        assert [] + [REPLACEMENT] + Drain(bs[Scan(bs).n..]).0 == [REPLACEMENT] + Drain(bs[Scan(bs).n..]).0;
      }
    }
  }

  /** Past a character, checking and draining go on alike. */
  lemma PastCharacter(bs: seq<byte>)
    requires bs != [] && Scan(bs).Char?
    ensures var n, c := Scan(bs).n, Scan(bs).c;
            var r, d := FromUtf8(bs[n..]), Drain(bs[n..]);
            FromUtf8(bs) == (if r.Valid? then Valid([c] + r.s) else Invalid(n + r.upTo, r.errorLen)) && Drain(bs) == ([c] + d.0, d.1)
  {
    hide Scan;
  }

  lemma PrefixPastCharacter(bs: seq<byte>, u: nat)
    requires bs != [] && Scan(bs).Char? && Scan(bs).n <= u <= |bs|
    requires FromUtf8(bs[Scan(bs).n..][..u - Scan(bs).n]).Valid?
    ensures FromUtf8(bs[..u]) == Valid([Scan(bs).c] + FromUtf8(bs[Scan(bs).n..][..u - Scan(bs).n]).s)
  {
    CharIsLocal(bs, u);
    hide Scan, FromUtf8, Drain;
    var n := Scan(bs).n;
    assert bs[..u][n..] == bs[n..][..u - n];
    PastCharacter(bs[..u]);
  }

  lemma DropTwice(bs: seq<byte>, n: nat, m: nat)
    requires n + m <= |bs|
    ensures bs[n..][m..] == bs[n + m..]
  {
  }

  lemma Prepend(c: char, s: string, r: string)
    ensures [c] + (s + [REPLACEMENT] + r) == ([c] + s) + [REPLACEMENT] + r
  {
  }

  lemma {:induction false} CheckedDrainStep(bs: seq<byte>)
    requires bs != [] && Scan(bs).Char?
    ensures CheckAgrees(bs)
    decreases |bs|, 0
  {
    var n, c := Scan(bs).n, Scan(bs).c;
    hide Scan, FromUtf8, Drain;
    var t := bs[n..];
    CheckedDrain(t);
    PastCharacter(bs);
    match FromUtf8(t)
    case Valid(s) =>
    case Invalid(v, e) =>
      var u := n + v;
      PrefixPastCharacter(bs, u);
      DropTwice(bs, n, v);
      var s := FromUtf8(t[..v]).s;
      match e
      case None => assert Drain(bs) == ([c] + s, bs[u..]);
      case Some(k) =>
        DropTwice(bs, n, v + k);
        Prepend(c, s, Drain(bs[u + k..]).0);
  }

  // --------------------------------------------------------------- buffer

  class DetokBuffer {
    var pending: seq<byte>

    /** Everything settled has been emitted; the tail is at most three bytes of one character. */
    ghost predicate Valid()
      reads this
    {
      Drain(pending) == ([], pending)
    }

    constructor ()
      ensures Valid() && pending == []
    {
      pending := [];
    }

    /** `push_byte`: emit every complete character or replacement, withhold the rest. */
    method PushByte(b: byte, out0: string) returns (out: string)
      requires Valid()
      modifies this
      ensures Valid() && |pending| <= 3
      ensures (out, pending) == (out0 + Drain(old(pending) + [b]).0, Drain(old(pending) + [b]).1)
    {
      hide Scan, FromUtf8;
      ghost var all := pending + [b];
      pending := pending + [b];
      out := out0;
      while true
        invariant out + Drain(pending).0 == out0 + Drain(all).0 && Drain(pending).1 == Drain(all).1
        decreases |pending|
      {
        CheckedDrain(pending);
        match FromUtf8(pending) {
          case Valid(s) =>
            out := out + s;
            pending := [];
            TailIsSettled(all);
            return;
          case Invalid(valid, errorLen) =>
            out := out + FromUtf8(pending[..valid]).s;
            match errorLen {
              case Some(n) =>
                out := out + ['\U{FFFD}'];
                pending := pending[valid + n..];
              case None =>
                pending := pending[valid..];
                TailIsSettled(all);
                return;
            }
        }
      }
    }

    /** `flush`: an unfinished character becomes one replacement. */
    method Flush(out0: string) returns (out: string)
      modifies this
      ensures pending == [] && Valid()
      ensures out == out0 + if old(pending) == [] then [] else ['\U{FFFD}']
    {
      out := out0;
      if pending != [] {
        out := out + ['\U{FFFD}'];
        pending := [];
      }
    }
  }

  lemma TailIsSettled(bs: seq<byte>)
    ensures Drain(Drain(bs).1) == ([], Drain(bs).1)
  {
  }

  /**
    Pushing bytes one at a time and flushing is decoding them all at once; every
    intermediate output is a prefix of the final text.
   */
  method StreamBytes(bs: seq<byte>) returns (out: string, ghost steps: seq<string>)
    ensures out == Lossy(bs)
    ensures |steps| == |bs| && forall i | 0 <= i < |bs| :: steps[i] == Drain(bs[..i + 1]).0 && steps[i] <= out
  {
    var buf := new DetokBuffer();
    out, steps := [], [];
    var i := 0;
    while i < |bs|
      invariant i <= |bs| && |steps| == i && buf.Valid()
      invariant (out, buf.pending) == Drain(bs[..i])
      invariant forall j | 0 <= j < i :: steps[j] == Drain(bs[..j + 1]).0 && steps[j] <= Lossy(bs)
    {
      assert bs[..i + 1] == bs[..i] + [bs[i]];
      DrainIsIncremental(bs[..i], [bs[i]]);
      out := buf.PushByte(bs[i], out);
      assert bs == bs[..i + 1] + bs[i + 1..];
      EmittedIsPrefix(bs[..i + 1], bs[i + 1..]);
      steps := steps + [out];
      i := i + 1;
    }
    assert bs[..i] == bs;
    LossyIsDrain(bs);
    out := buf.Flush(out);
  }
}
